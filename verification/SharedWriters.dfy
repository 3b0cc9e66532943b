/** Every interleaving of the gamepad thread with the other writers of the shared state. One act is
    one critical section: a gamepad poll of one topic, or one setter call of another thread. */
module SharedWriters {
  import opened Units
  import opened DaemonState
  import opened GamepadIngest
  import opened BitOps
  import Encoder = ControlDataEncoder

  datatype Option<T> = None | Some(value: T)

  datatype Field = FEnabled | FMode | FAlliance | FEStop | FMatchTime

  datatype Poll =
    | PollEnabled(on: bool)
    | PollMode(value: int)
    | PollAlliance(value: int)
    | PollEStop(on: bool)

  datatype Act = Gamepad(poll: Poll) | Other(write: Write)

  function FieldOf(w: Write): Field {
    match w
    case SetEnabled(_) => FEnabled
    case SetMode(_) => FMode
    case SetAlliance(_) => FAlliance
    case SetEStop(_) => FEStop
    case SetMatchTime(_) => FMatchTime
  }

  /** The write a poll makes if it makes one. */
  function WriteOf(p: Poll): Write {
    match p
    case PollEnabled(v) => SetEnabled(v)
    case PollMode(v) => SetMode(Encoder.ModeFromInt(v))
    case PollAlliance(v) => SetAlliance(Int32(v))
    case PollEStop(v) => SetEStop(v)
  }

  /** A tick polls the topics in this order. */
  function Turn(p: Poll): nat {
    match p
    case PollEnabled(_) => 0
    case PollMode(_) => 1
    case PollAlliance(_) => 2
    case PollEStop(_) => 3
  }

  // ---- The threads as they run ---------------------------------------------------------------

  /** The gamepad thread's memory and the shared state; `polls` counts its polls, so the first tick
      is under way while it is below 4. */
  datatype World = World(seen: Pad, polls: nat, control: Control)

  predicate Changed(seen: Pad, p: Poll) {
    match p
    case PollEnabled(v) => v != seen.enabled
    case PollMode(v) => v != seen.mode
    case PollAlliance(v) => v != seen.alliance
    case PollEStop(v) => v != seen.eStop
  }

  function Remember(seen: Pad, p: Poll): Pad {
    match p
    case PollEnabled(v) => seen.(enabled := v)
    case PollMode(v) => seen.(mode := v)
    case PollAlliance(v) => seen.(alliance := v)
    case PollEStop(v) => seen.(eStop := v)
  }

  function Perform(w: World, a: Act): World {
    match a
    case Other(x) => w.(control := Apply(w.control, x))
    case Gamepad(p) =>
      if w.polls < 4 || Changed(w.seen, p)
      then World(Remember(w.seen, p), w.polls + 1, Apply(w.control, WriteOf(p)))
      else w.(polls := w.polls + 1)
  }

  function Run(c: Control, acts: seq<Act>): World {
    if acts == [] then World(NOTHING_SEEN, 0, c)
    else Perform(Run(c, acts[..|acts| - 1]), acts[|acts| - 1])
  }

  /** The gamepad thread polls its topics in turn. */
  predicate InTurn(acts: seq<Act>) {
    acts == [] ||
    var before, a := acts[..|acts| - 1], acts[|acts| - 1];
    InTurn(before) && (a.Gamepad? ==> Turn(a.poll) == PollCount(before) % 4)
  }

  function PollCount(acts: seq<Act>): nat {
    if acts == [] then 0
    else PollCount(acts[..|acts| - 1]) + (if acts[|acts| - 1].Gamepad? then 1 else 0)
  }

  lemma PerformPoll(w: World, p: Poll)
    ensures Perform(w, Gamepad(p))
         == World(Remember(w.seen, p), w.polls + 1,
                  if w.polls < 4 || Changed(w.seen, p) then Apply(w.control, WriteOf(p)) else w.control)
  {
  }

  /** Four polls in a row are a tick. */
  lemma TickIsFourPolls(w: World, pad: Pad)
    requires w.polls % 4 == 0
    ensures var w1 := Perform(w, Gamepad(PollEnabled(pad.enabled)));
      var w2 := Perform(w1, Gamepad(PollMode(pad.mode)));
      var w3 := Perform(w2, Gamepad(PollAlliance(pad.alliance)));
      var w4 := Perform(w3, Gamepad(PollEStop(pad.eStop)));
      && w4.seen == pad && w4.polls % 4 == 0
      && w4.control == Replay(w.control, TickWrites(w.polls == 0, w.seen, pad))
  {
    var first := w.polls == 0;
    var w1 := Perform(w, Gamepad(PollEnabled(pad.enabled)));
    var w2 := Perform(w1, Gamepad(PollMode(pad.mode)));
    var w3 := Perform(w2, Gamepad(PollAlliance(pad.alliance)));
    PerformPoll(w, PollEnabled(pad.enabled));
    PerformPoll(w1, PollMode(pad.mode));
    PerformPoll(w2, PollAlliance(pad.alliance));
    PerformPoll(w3, PollEStop(pad.eStop));
    ReplayFour(w.control,
               first || pad.enabled != w.seen.enabled, SetEnabled(pad.enabled),
               first || pad.mode != w.seen.mode, SetMode(Encoder.ModeFromInt(pad.mode)),
               first || pad.alliance != w.seen.alliance, SetAlliance(Int32(pad.alliance)),
               first || pad.eStop != w.seen.eStop, SetEStop(pad.eStop));
  }

  // ---- Who wrote last ------------------------------------------------------------------------

  /** The last poll of a field's topic. */
  function LastPoll(acts: seq<Act>, f: Field): Option<Poll> {
    if acts == [] then None
    else
      var a := acts[|acts| - 1];
      if a.Gamepad? && FieldOf(WriteOf(a.poll)) == f then Some(a.poll)
      else LastPoll(acts[..|acts| - 1], f)
  }

  /** The last write that counts for a field, told from the acts alone: another thread's setter
      call, or a poll that was the first of its topic or saw it change. */
  function LastWrite(acts: seq<Act>, f: Field): Option<Write> {
    if acts == [] then None
    else
      var before, a := acts[..|acts| - 1], acts[|acts| - 1];
      if a.Other? then
        if FieldOf(a.write) == f then Some(a.write) else LastWrite(before, f)
      else if FieldOf(WriteOf(a.poll)) == f && LastPoll(before, f) != Some(a.poll) then Some(WriteOf(a.poll))
      else LastWrite(before, f)
  }

  predicate SameAt(f: Field, c: Control, d: Control) {
    match f
    case FEnabled => c.enabled == d.enabled
    case FMode => c.mode == d.mode
    case FAlliance => c.alliance == d.alliance
    case FEStop => c.eStop == d.eStop
    case FMatchTime => c.matchTime == d.matchTime
  }

  function FieldAtTurn(n: nat): Field
    requires n < 4
  {
    if n == 0 then FEnabled else if n == 1 then FMode else if n == 2 then FAlliance else FEStop
  }

  /** The thread remembers the last poll of every topic it has polled, and polls each once in its
      first tick. */
  lemma {:induction false} RemembersLastPolls(c: Control, acts: seq<Act>)
    requires InTurn(acts)
    ensures var w := Run(c, acts);
      && w.polls == PollCount(acts)
      && forall n: nat | n < 4 ::
           var last := LastPoll(acts, FieldAtTurn(n));
           (last.Some? <==> n < w.polls) && (last.Some? ==> Turn(last.value) == n && !Changed(w.seen, last.value))
  {
    if acts != [] {
      RemembersLastPolls(c, acts[..|acts| - 1]);
    }
  }

  /** A poll writes exactly when it is the first of its topic or saw it change. */
  lemma PollWritesIffNews(c: Control, before: seq<Act>, p: Poll)
    requires InTurn(before + [Gamepad(p)])
    ensures var w := Run(c, before);
      (w.polls < 4 || Changed(w.seen, p)) <==> LastPoll(before, FieldOf(WriteOf(p))) != Some(p)
  {
    assert (before + [Gamepad(p)])[..|before|] == before;
    RemembersLastPolls(c, before);
    assert FieldAtTurn(Turn(p)) == FieldOf(WriteOf(p));
  }

  lemma ApplyAt(f: Field, c: Control, x: Write)
    ensures FieldOf(x) != f ==> SameAt(f, Apply(c, x), c)
    ensures Apply(Apply(c, x), x) == Apply(c, x)
  {
  }

  lemma SettingKept(f: Field, c: Control, c': Control, x: Write)
    requires SameAt(f, c, Apply(c, x)) && SameAt(f, c', c)
    ensures SameAt(f, c', Apply(c', x))
  {
  }

  lemma SameTransitive(f: Field, a: Control, b: Control, c: Control)
    requires SameAt(f, a, b) && SameAt(f, b, c)
    ensures SameAt(f, a, c)
  {
  }

  /** Field `f` holds what `last` says, or else what it held in `c`. */
  predicate Settled(f: Field, now: Control, last: Option<Write>, c: Control) {
    if last.Some? then SameAt(f, now, Apply(now, last.value)) else SameAt(f, now, c)
  }

  lemma SettledKept(f: Field, was: Control, now: Control, last: Option<Write>, c: Control)
    requires Settled(f, was, last, c) && SameAt(f, now, was)
    ensures Settled(f, now, last, c)
  {
    if last.Some? {
      SettingKept(f, was, now, last.value);
    } else {
      SameTransitive(f, now, was, c);
    }
  }

  /** Every field holds the value of the last write that counts for it, or its initial value. */
  lemma {:induction false} LastWriterWins(c: Control, acts: seq<Act>, f: Field)
    requires InTurn(acts)
    ensures Settled(f, Run(c, acts).control, LastWrite(acts, f), c)
  {
    if acts != [] {
      var before, a := acts[..|acts| - 1], acts[|acts| - 1];
      LastWriterWins(c, before, f);
      var w, x := Run(c, before), if a.Other? then a.write else WriteOf(a.poll);
      ApplyAt(f, w.control, x);
      if a.Gamepad? {
        assert acts == before + [a];
        PollWritesIffNews(c, before, a.poll);
      }
      if FieldOf(x) != f || Run(c, acts).control == w.control {
        SettledKept(f, w.control, Run(c, acts).control, LastWrite(before, f), c);
      }
    }
  }

  /** Polls that see nothing new never undo another thread's setting. */
  lemma {:induction false} SettingSurvives(c: Control, acts: seq<Act>, x: Write, later: seq<Act>)
    requires InTurn(acts + [Other(x)] + later)
    requires forall a <- later :: a.Other? ==> FieldOf(a.write) != FieldOf(x)
    requires forall a <- later :: a.Gamepad? && FieldOf(WriteOf(a.poll)) == FieldOf(x) ==>
               LastPoll(acts, FieldOf(x)) == Some(a.poll)
    ensures Settled(FieldOf(x), Run(c, acts + [Other(x)] + later).control, Some(x), c)
  {
    LastWriteKept(acts, x, later);
    LastWriterWins(c, acts + [Other(x)] + later, FieldOf(x));
  }

  lemma {:induction false} LastWriteKept(acts: seq<Act>, x: Write, later: seq<Act>)
    requires forall a <- later :: a.Other? ==> FieldOf(a.write) != FieldOf(x)
    requires forall a <- later :: a.Gamepad? && FieldOf(WriteOf(a.poll)) == FieldOf(x) ==>
               LastPoll(acts, FieldOf(x)) == Some(a.poll)
    ensures LastWrite(acts + [Other(x)] + later, FieldOf(x)) == Some(x)
    ensures LastPoll(acts + [Other(x)] + later, FieldOf(x)) == LastPoll(acts, FieldOf(x))
  {
    var all := acts + [Other(x)] + later;
    if later == [] {
      assert all[..|all| - 1] == acts && all[|all| - 1] == Other(x);
    } else {
      var n := |later| - 1;
      assert all[..|all| - 1] == acts + [Other(x)] + later[..n] && all[|all| - 1] == later[n];
      assert forall a <- later[..n] :: a in later;
      assert later[n] in later;
      LastWriteKept(acts, x, later[..n]);
    }
  }

  // ---- The alliance on the wire --------------------------------------------------------------

  /** The alliance digit of the packed word. */
  function WireAlliance(c: Control): nat {
    Shr(And(Encoder.Layout(ViewOf(c)), Encoder.CW_ALLIANCE), 8)
  }

  /** Whoever wrote the alliance last, its low four bits are published. A value the web UI lets
      through is published as it is; the gamepad path does not clamp, so its topic value is published
      as it is exactly when it fits the four bits, and in the range 0..3 exactly when its remainder
      modulo 16 is. */
  lemma AllianceOnTheWire(c: Control, acts: seq<Act>)
    requires InTurn(acts) && LastWrite(acts, FAlliance).Some?
    ensures var a, last := WireAlliance(Run(c, acts).control), LastWrite(acts, FAlliance).value;
      && last.SetAlliance? && a == last.alliance % 16
      && (0 <= last.alliance <= 3 ==> a == last.alliance)
      && forall v: int | last == WriteOf(PollAlliance(v)) :: a == v % 16 && (a == v <==> 0 <= v <= 15)
  {
    LastWriterWins(c, acts, FAlliance);
    LastWriteNames(acts, FAlliance);
    AlliancePacked(Run(c, acts).control);
    forall v: int ensures Int32(v) % 16 == v % 16 && (v % 16 == v <==> 0 <= v <= 15) {
      LowBitsKept(v);
    }
  }

  lemma AlliancePacked(c: Control)
    ensures WireAlliance(c) == c.alliance % 16
  {
    Encoder.UnpackControlWord(ViewOf(c));
  }

  lemma LowBitsKept(v: int)
    ensures Int32(v) % 16 == v % 16
    ensures v % 16 == v <==> 0 <= v <= 15
  {
    assert v % 0x1_0000_0000 % 16 == v % 16;
  }

  /** A gamepad alliance of 4 is published as 4. */
  lemma AllianceOutOfRangeExample(c: Control)
    ensures var acts := [Gamepad(PollEnabled(false)), Gamepad(PollMode(0)), Gamepad(PollAlliance(4))];
      InTurn(acts) && WireAlliance(Run(c, acts).control) == 4
  {
    var p, q, r := Gamepad(PollEnabled(false)), Gamepad(PollMode(0)), Gamepad(PollAlliance(4));
    InTurnStep([], p);
    InTurnStep([p], q);
    InTurnStep([p, q], r);
    assert [] + [p] == [p] && [p] + [q] == [p, q] && [p, q] + [r] == [p, q, r];
    AllianceOnTheWire(c, [p, q, r]);
  }

  lemma InTurnStep(acts: seq<Act>, a: Act)
    ensures PollCount(acts + [a]) == PollCount(acts) + (if a.Gamepad? then 1 else 0)
    ensures InTurn(acts + [a]) <==> InTurn(acts) && (a.Gamepad? ==> Turn(a.poll) == PollCount(acts) % 4)
    ensures a.Gamepad? && LastPoll(acts, FieldOf(WriteOf(a.poll))) == None ==>
      LastWrite(acts + [a], FieldOf(WriteOf(a.poll))) == Some(WriteOf(a.poll))
    ensures forall f :: !(a.Gamepad? && FieldOf(WriteOf(a.poll)) == f) ==> LastPoll(acts + [a], f) == LastPoll(acts, f)
  {
    assert (acts + [a])[..|acts|] == acts;
  }

  lemma {:induction false} LastWriteNames(acts: seq<Act>, f: Field)
    ensures LastWrite(acts, f).Some? ==> FieldOf(LastWrite(acts, f).value) == f
  {
    if acts != [] {
      LastWriteNames(acts[..|acts| - 1], f);
    }
  }
}
