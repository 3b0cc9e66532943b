/** The web UI's two form handlers. */
module WebUi {
  import opened Units
  import opened DaemonState
  import opened FormBody
  import Encoder = ControlDataEncoder
  import Match = MatchController
  import Schedule = MatchOnSchedule

  // ---- Values --------------------------------------------------------------------------------

  predicate IsTrue(v: string) {
    v == "true" || v == "1"
  }

  predicate IsDigit(c: char) {
    '0' <= c <= '9'
  }

  function Digits(s: string, acc: nat): nat {
    if s == "" || !IsDigit(s[0]) then acc else Digits(s[1..], acc * 10 + (s[0] - '0') as nat)
  }

  /** `std::from_chars` into an int that starts as 0, and stays 0 without digits or when the number
      does not fit. */
  function FromChars(s: string): int {
    var negative := s != "" && s[0] == '-';
    var t := if negative then s[1..] else s;
    if t == "" || !IsDigit(t[0]) then 0
    else
      var n := if negative then -(Digits(t, 0) as int) else Digits(t, 0);
      if -0x8000_0000 <= n < 0x8000_0000 then n else 0
  }

  /** The setter calls made for the four fields, in order. */
  function FieldWrites(enabled: string, estop: string, mode: string, alliance: string): seq<Write> {
    When(enabled != "", SetEnabled(IsTrue(enabled)))
    + When(estop != "", SetEStop(IsTrue(estop)))
    + When(mode != "", SetMode(Encoder.ModeFromInt(FromChars(mode))))
    + When(alliance != "", SetAlliance(Min(Max(FromChars(alliance), 0), 3)))
  }

  function FormWrites(body: string): seq<Write> {
    FieldWrites(Extract(body, "enabled"), Extract(body, "estop"), Extract(body, "mode"), Extract(body, "alliance"))
  }

  /** The match event a form asks for. */
  datatype Verb = Start | Stop | SkipToTeleop | NoVerb

  function VerbNamed(action: string): Verb {
    if action == "start" then Start
    else if action == "stop" then Stop
    else if action == "skip-to-teleop" then SkipToTeleop
    else NoVerb
  }

  function VerbOf(body: string): Verb {
    VerbNamed(ExtractAnywhere(body, "action"))
  }

  lemma ActionAt(body: string, pos: int)
    requires pos == Find(body, "action=")
    ensures VerbOf(body) == if pos == -1 then NoVerb else VerbNamed(UpToAmp(body[pos + 7..]))
  {
    assert "action" + "=" == "action=";
  }

  /** A match form does what the first pair whose key ends in "action" says. */
  lemma VerbIsFirstAction(ps: seq<Pair>)
    requires CleanPairs(ps)
    ensures VerbOf(Render(ps)) == VerbNamed(FirstEndingAny(ps, "action"))
  {
    ExtractAnywhereIsFirstEnding(ps, "action");
  }

  function EventOf(verb: Verb, now: int): Match.Event
    requires verb != NoVerb
  {
    match verb
    case Start => Match.StartMatch(now)
    case Stop => Match.StopMatch
    case SkipToTeleop => Match.Event.SkipToTeleop(now)
  }

  /** The clock after a match form that asks for `verb`. */
  function ClockAfter(d: Match.Durations, c: Match.Clock, verb: Verb, now: int): Match.Clock {
    if verb == NoVerb then c else Match.Step(d, c, EventOf(verb, now))
  }

  /** The setter calls it makes. */
  function MatchWrites(d: Match.Durations, c: Match.Clock, verb: Verb, now: int): seq<Write> {
    if verb == NoVerb then [] else Match.Writes(d, c, EventOf(verb, now))
  }

  /** What a match form does, by the value of the first pair whose key ends in "action": "start"
      begins Auto now, "stop" resets the clock, "skip-to-teleop" begins Teleop now as if Auto and the gap
      had passed, and anything else does nothing. */
  lemma MatchFormObeyed(ps: seq<Pair>, d: Match.Durations, c: Match.Clock, now: int)
    requires CleanPairs(ps)
    ensures var action, c' := FirstEndingAny(ps, "action"), ClockAfter(d, c, VerbOf(Render(ps)), now);
      && (action == "start" ==> c' == Match.Clock(Match.Auto, now, now))
      && (action == "stop" ==> c' == Match.Clock(Match.Idle, 0, 0))
      && (action == "skip-to-teleop" ==>
            c' == Match.Clock(Match.Teleop, now - (d.autoPeriod + d.autoTeleopGap) * 1_000_000, now))
      && (action != "start" && action != "stop" && action != "skip-to-teleop" ==>
            c' == c && MatchWrites(d, c, VerbOf(Render(ps)), now) == [])
  {
    VerbIsFirstAction(ps);
  }

  /** What it tells the robot: enabled in Auto, disabled with no mode and no time left, or enabled in
      Teleop. */
  lemma MatchFormTellsRobot(ps: seq<Pair>, d: Match.Durations, c: Match.Clock, now: int, v: Control)
    requires CleanPairs(ps)
    ensures var action, v' := FirstEndingAny(ps, "action"), Replay(v, MatchWrites(d, c, VerbOf(Render(ps)), now));
      && (action == "start" ==> v'.enabled && v'.mode == Encoder.RobotMode.Auto)
      && (action == "stop" ==> !v'.enabled && v'.mode == Encoder.RobotMode.Unknown && v'.matchTime == 0)
      && (action == "skip-to-teleop" ==> v'.enabled && v'.mode == Encoder.RobotMode.Teleop)
      && v'.eStop == v.eStop && v'.alliance == v.alliance
  {
    VerbIsFirstAction(ps);
    Schedule.StartTellsRobot(d, c, now, v);
    Schedule.StopTellsRobot(d, c, v);
    Schedule.SkipTellsRobot(d, c, now, v);
  }

  /** The first key that ends in "action" is a longer one, and names another verb than the setting
      of "action" itself after it. */
  predicate Hijacked(ps: seq<Pair>) {
    ps != [] && ps[0].key != "action"
    && if EndsWith(ps[0].key, "action") then VerbNamed(ps[0].value) != VerbNamed(Lookup(ps[1..], "action"))
       else Hijacked(ps[1..])
  }

  /** A match form does what splitting it into pairs would say exactly when no longer key with that
      ending comes first and says otherwise. */
  lemma {:induction false} VerbIsLookupIffNotHijacked(ps: seq<Pair>)
    requires CleanPairs(ps)
    ensures VerbOf(Render(ps)) == VerbNamed(Lookup(ps, "action")) <==> !Hijacked(ps)
  {
    VerbIsFirstAction(ps);
    FirstActionIsLookup(ps);
  }

  lemma {:induction false} FirstActionIsLookup(ps: seq<Pair>)
    ensures VerbNamed(FirstEndingAny(ps, "action")) == VerbNamed(Lookup(ps, "action")) <==> !Hijacked(ps)
  {
    if ps != [] {
      FirstActionIsLookup(ps[1..]);
      assert ps[0].key == "action" ==> EndsWith(ps[0].key, "action");
    }
  }

  lemma VerbOfOnePair(p: Pair)
    requires Clean(p.key) && Clean(p.value) && EndsWith(p.key, "action") && p.key != "action"
    ensures Render([p]) == p.key + "=" + p.value
    ensures VerbOf(Render([p])) == VerbNamed(p.value) && Lookup([p], "action") == ""
  {
    VerbIsFirstAction([p]);
    assert [p][1..] == [];
  }

  /** A key that merely ends in "action" starts a match. */
  lemma HijackedExample()
    ensures var ps := [Pair("reaction", "start")];
      && Render(ps) == "reaction=start" && VerbOf(Render(ps)) == Start
      && VerbNamed(Lookup(ps, "action")) == NoVerb
  {
    assert "reaction"[2..] == "action";
    VerbOfOnePair(Pair("reaction", "start"));
  }

  class WebUi {
    const state: DaemonState
    const controller: Match.MatchController

    constructor (state: DaemonState, controller: Match.MatchController)
      ensures this.state == state && this.controller == controller
    {
      this.state, this.controller := state, controller;
    }

    method HandleSetControl(body: string)
      requires state.Valid()
      modifies state
      ensures state.Valid() && state.calls == old(state.calls) + FormWrites(body)
    {
      SetFields(Extract(body, "enabled"), Extract(body, "estop"), Extract(body, "mode"), Extract(body, "alliance"));
    }

    method SetFields(enabled: string, estop: string, mode: string, alliance: string)
      requires state.Valid()
      modifies state
      ensures state.Valid() && state.calls == old(state.calls) + FieldWrites(enabled, estop, mode, alliance)
    {
      ghost var calls := state.calls;
      SetEnabledFrom(enabled);
      ghost var calls1 := state.calls;
      SetEStopFrom(estop);
      ghost var calls2 := state.calls;
      SetModeFrom(mode);
      ghost var calls3 := state.calls;
      SetAllianceFrom(alliance);
      FourAppended(calls, calls1[|calls|..], calls2[|calls1|..], calls3[|calls2|..], state.calls[|calls3|..]);
    }

    method SetEnabledFrom(v: string)
      requires state.Valid()
      modifies state
      ensures state.Valid() && state.calls == old(state.calls) + When(v != "", SetEnabled(IsTrue(v)))
    {
      if v != "" {
        state.SetEnabled(v == "true" || v == "1");
      }
    }

    method SetEStopFrom(v: string)
      requires state.Valid()
      modifies state
      ensures state.Valid() && state.calls == old(state.calls) + When(v != "", SetEStop(IsTrue(v)))
    {
      if v != "" {
        state.SetEStop(v == "true" || v == "1");
      }
    }

    method SetModeFrom(v: string)
      requires state.Valid()
      modifies state
      ensures state.Valid() && state.calls == old(state.calls) + When(v != "", SetMode(Encoder.ModeFromInt(FromChars(v))))
    {
      if v != "" {
        var m := FromChars(v);
        state.SetMode(Encoder.ModeFromInt(if m >= 0 && m <= 3 then m else 0));
      }
    }

    method SetAllianceFrom(v: string)
      requires state.Valid()
      modifies state
      ensures state.Valid()
      ensures state.calls == old(state.calls) + When(v != "", SetAlliance(Min(Max(FromChars(v), 0), 3)))
    {
      if v != "" {
        var a := FromChars(v);
        if a < 0 { a := 0; }
        if a > 3 { a := 3; }
        state.SetAlliance(a);
      }
    }

    method HandleMatch(body: string, now: int)
      requires controller.state.Valid()
      modifies controller, controller.state
      ensures controller.state.Valid()
      ensures var d, before, verb := controller.durations, old(controller.Fields()), VerbOf(body);
        && controller.Fields() == ClockAfter(d, before, verb, now)
        && controller.state.calls == old(controller.state.calls) + MatchWrites(d, before, verb, now)
    {
      var pos := Find(body, "action=");
      ActionAt(body, pos);
      if pos == -1 { return; }
      Obey(UpToAmp(body[pos + 7..]), now);
    }

    method Obey(action: string, now: int)
      requires controller.state.Valid()
      modifies controller, controller.state
      ensures controller.state.Valid()
      ensures var d, before, verb := controller.durations, old(controller.Fields()), VerbNamed(action);
        && controller.Fields() == ClockAfter(d, before, verb, now)
        && controller.state.calls == old(controller.state.calls) + MatchWrites(d, before, verb, now)
    {
      if action == "start" {
        controller.StartMatch(now);
      } else if action == "stop" {
        controller.StopMatch();
      } else if action == "skip-to-teleop" {
        controller.SkipToTeleop(now);
      }
    }
  }

  // ---- What a form does to the state ---------------------------------------------------------

  const KEYS: seq<string> := ["enabled", "estop", "mode", "alliance"]

  lemma KeyEndsOnlyItself(k: string, key: string)
    requires k in KEYS && key in KEYS && EndsWith(k, key)
    ensures k == key
  {
    EndsAlike(k, key, 1);
    EndsAlike(k, key, 2);
  }

  lemma EndsAlike(k: string, key: string, n: nat)
    requires EndsWith(k, key) && 0 < n <= |key|
    ensures k[|k| - n] == key[|key| - n]
  {
  }

  lemma {:induction false} KeysNeverShadowed(ps: seq<Pair>, key: string)
    requires key in KEYS && forall p <- ps :: p.key in KEYS
    ensures !Shadowed(ps, key)
  {
    if ps != [] {
      assert ps[0] in ps;
      if EndsWith(ps[0].key, key) {
        KeyEndsOnlyItself(ps[0].key, key);
      }
      KeysNeverShadowed(ps[1..], key);
    }
  }

  /** The effect of a form, field by field: a switch is on for "true" and "1", modes 1, 2 and 3 are
      Auto, Teleop and Test and any other number Unknown, and the alliance is clamped. */
  lemma {:induction false} FormEffect(c: Control, body: string)
    ensures var c' := Replay(c, FormWrites(body));
      var enabled, estop := Extract(body, "enabled"), Extract(body, "estop");
      var mode, alliance := Extract(body, "mode"), Extract(body, "alliance");
      && c'.enabled == (if enabled == "" then c.enabled else enabled == "true" || enabled == "1")
      && c'.eStop == (if estop == "" then c.eStop else estop == "true" || estop == "1")
      && (mode == "" ==> c'.mode == c.mode)
      && (mode != "" ==>
            && (c'.mode == Encoder.RobotMode.Auto <==> FromChars(mode) == 1)
            && (c'.mode == Encoder.RobotMode.Teleop <==> FromChars(mode) == 2)
            && (c'.mode == Encoder.RobotMode.Test <==> FromChars(mode) == 3))
      && (alliance == "" ==> c'.alliance == c.alliance)
      && (alliance != "" ==>
            var n := FromChars(alliance); c'.alliance == if n < 0 then 0 else if n > 3 then 3 else n)
      && c'.matchTime == c.matchTime
  {
    FormEffectOf(c, Extract(body, "enabled"), Extract(body, "estop"), Extract(body, "mode"), Extract(body, "alliance"));
  }

  lemma FormEffectOf(c: Control, enabled: string, estop: string, mode: string, alliance: string)
    ensures Replay(c, FieldWrites(enabled, estop, mode, alliance))
         == Control(if enabled == "" then c.enabled else IsTrue(enabled),
                    if mode == "" then c.mode else Encoder.ModeFromInt(FromChars(mode)),
                    if alliance == "" then c.alliance else Min(Max(FromChars(alliance), 0), 3),
                    if estop == "" then c.eStop else IsTrue(estop),
                    c.matchTime)
  {
    var w1, w2 := SetEnabled(IsTrue(enabled)), SetEStop(IsTrue(estop));
    var w3, w4 := SetMode(Encoder.ModeFromInt(FromChars(mode))), SetAlliance(Min(Max(FromChars(alliance), 0), 3));
    ReplayFour(c, enabled != "", w1, estop != "", w2, mode != "", w3, alliance != "", w4);
  }

  /** The order of the setters in a form. */
  function Place(w: Write): nat {
    match w
    case SetEnabled(_) => 0
    case SetEStop(_) => 1
    case SetMode(_) => 2
    case SetAlliance(_) => 3
    case SetMatchTime(_) => 4
  }

  /** Each setter is called at most once, and none but those four. */
  lemma FormWritesInOrder(body: string)
    ensures InOrder(FormWrites(body), Place, 0, 4)
  {
    var enabled, estop := Extract(body, "enabled"), Extract(body, "estop");
    var mode, alliance := Extract(body, "mode"), Extract(body, "alliance");
    FourInOrder(enabled != "", SetEnabled(IsTrue(enabled)), estop != "", SetEStop(IsTrue(estop)),
                mode != "", SetMode(Encoder.ModeFromInt(FromChars(mode))),
                alliance != "", SetAlliance(Min(Max(FromChars(alliance), 0), 3)), Place);
  }

  /** Whatever a body contains, a web-set alliance stays in 0..3, and match time is not the form's
      to set. */
  lemma FormKeepsRange(c: Control, body: string)
    requires 0 <= c.alliance <= 3
    ensures 0 <= Replay(c, FormWrites(body)).alliance <= 3
    ensures Replay(c, FormWrites(body)).matchTime == c.matchTime
  {
    FormEffect(c, body);
  }

  // ---- Round trip ----------------------------------------------------------------------------

  /** One setting the page can post. */
  datatype Setting =
    | Enabled(on: bool)
    | EStop(on: bool)
    | Mode(mode: Encoder.RobotMode)
    | Alliance(station: nat)

  predicate InRange(s: Setting) {
    s.Alliance? ==> s.station <= 3
  }

  function Digit(n: nat): string
    requires n <= 3
  {
    if n == 0 then "0" else if n == 1 then "1" else if n == 2 then "2" else "3"
  }

  function ToPair(s: Setting): Pair
    requires InRange(s)
  {
    match s
    case Enabled(on) => Pair("enabled", if on then "true" else "false")
    case EStop(on) => Pair("estop", if on then "true" else "false")
    case Mode(m) => Pair("mode", Digit(Encoder.ModeNumber(m)))
    case Alliance(n) => Pair("alliance", Digit(n))
  }

  function ToPairs(ss: seq<Setting>): (ps: seq<Pair>)
    requires forall s <- ss :: InRange(s)
    ensures |ps| == |ss| && forall i :: 0 <= i < |ss| ==> ps[i] == ToPair(ss[i])
  {
    if ss == [] then [] else [ToPair(ss[0])] + ToPairs(ss[1..])
  }

  function Set(c: Control, s: Setting): Control {
    match s
    case Enabled(on) => c.(enabled := on)
    case EStop(on) => c.(eStop := on)
    case Mode(m) => c.(mode := m)
    case Alliance(n) => c.(alliance := n)
  }

  /** Settings applied one after the other. */
  function SetAll(c: Control, ss: seq<Setting>): Control
    decreases ss
  {
    if ss == [] then c else SetAll(Set(c, ss[0]), ss[1..])
  }

  predicate SameField(s: Setting, t: Setting) {
    (s.Enabled? && t.Enabled?) || (s.EStop? && t.EStop?) || (s.Mode? && t.Mode?) || (s.Alliance? && t.Alliance?)
  }

  predicate DistinctFields(ss: seq<Setting>) {
    forall i, j :: 0 <= i < j < |ss| ==> !SameField(ss[i], ss[j])
  }

  /** The fields of `c` that the pairs give a value for are set to it. */
  function Effect(c: Control, ps: seq<Pair>): Control {
    var enabled, estop := Lookup(ps, "enabled"), Lookup(ps, "estop");
    var mode, alliance := Lookup(ps, "mode"), Lookup(ps, "alliance");
    Control(if enabled == "" then c.enabled else IsTrue(enabled),
            if mode == "" then c.mode else Encoder.ModeFromInt(FromChars(mode)),
            if alliance == "" then c.alliance else Min(Max(FromChars(alliance), 0), 3),
            if estop == "" then c.eStop else IsTrue(estop),
            c.matchTime)
  }

  lemma DigitParses(n: nat)
    requires n <= 3
    ensures FromChars(Digit(n)) == n && Digit(n) != ""
  {
    assert Digit(n)[1..] == "";
    assert Digits(Digit(n), 0) == n;
  }

  lemma {:induction false} EffectIsSetAll(c: Control, ss: seq<Setting>)
    requires (forall s <- ss :: InRange(s)) && DistinctFields(ss)
    ensures Effect(c, ToPairs(ss)) == SetAll(c, ss)
    decreases ss
  {
    if ss != [] {
      var s, rest := ss[0], ss[1..];
      FieldAbsent(s, rest);
      EffectOfFirst(c, s, ToPairs(rest));
      EffectIsSetAll(Set(c, s), rest);
    }
  }

  lemma EffectOfFirst(c: Control, s: Setting, ps: seq<Pair>)
    requires InRange(s) && Lookup(ps, ToPair(s).key) == ""
    ensures Effect(c, [ToPair(s)] + ps) == Effect(Set(c, s), ps)
  {
    var all := [ToPair(s)] + ps;
    assert all[1..] == ps;
    match s
    case Enabled(_) =>
    case EStop(_) =>
    case Mode(m) => DigitParses(Encoder.ModeNumber(m));
    case Alliance(n) => DigitParses(n);
  }

  /** A field set first is not set again by settings of other fields. */
  lemma {:induction false} FieldAbsent(s: Setting, rest: seq<Setting>)
    requires InRange(s) && (forall t <- rest :: InRange(t)) && forall i :: 0 <= i < |rest| ==> !SameField(s, rest[i])
    ensures Lookup(ToPairs(rest), ToPair(s).key) == ""
  {
    if rest != [] {
      assert ToPairs(rest)[1..] == ToPairs(rest[1..]);
      assert !SameField(s, rest[0]);
      FieldAbsent(s, rest[1..]);
    }
  }

  lemma SettingsAreClean(ss: seq<Setting>)
    requires forall s <- ss :: InRange(s)
    ensures CleanPairs(ToPairs(ss)) && forall p <- ToPairs(ss) :: p.key in KEYS
  {
    forall p | p in ToPairs(ss) ensures Clean(p.key) && Clean(p.value) && p.key in KEYS {
      var i :| 0 <= i < |ss| && p == ToPair(ss[i]);
      SettingIsClean(ss[i]);
    }
  }

  lemma SettingIsClean(s: Setting)
    requires InRange(s)
    ensures Clean(ToPair(s).key) && Clean(ToPair(s).value) && ToPair(s).key in KEYS
  {
  }

  lemma {:induction false} ExtractsKey(ps: seq<Pair>, key: string)
    requires CleanPairs(ps) && key in KEYS && forall p <- ps :: p.key in KEYS
    ensures Extract(Render(ps), key) == Lookup(ps, key)
  {
    KeysNeverShadowed(ps, key);
    ExtractIsLookupIffNotShadowed(ps, key);
  }

  /** A body over the four keys, repeated or not, in any order, does what splitting it would say. */
  lemma {:induction false} FormIsEffect(c: Control, ps: seq<Pair>)
    requires CleanPairs(ps) && forall p <- ps :: p.key in KEYS
    ensures Replay(c, FormWrites(Render(ps))) == Effect(c, ps)
  {
    assert KEYS[0] == "enabled" && KEYS[1] == "estop" && KEYS[2] == "mode" && KEYS[3] == "alliance";
    ExtractsKey(ps, "enabled");
    ExtractsKey(ps, "estop");
    ExtractsKey(ps, "mode");
    ExtractsKey(ps, "alliance");
    FormEffectOf(c, Lookup(ps, "enabled"), Lookup(ps, "estop"), Lookup(ps, "mode"), Lookup(ps, "alliance"));
  }

  /** Posting any set of distinct settings, in any order, sets exactly those fields. */
  lemma {:induction false} FormRoundTrip(c: Control, ss: seq<Setting>)
    requires (forall s <- ss :: InRange(s)) && DistinctFields(ss)
    ensures Replay(c, FormWrites(Render(ToPairs(ss)))) == SetAll(c, ss)
  {
    SettingsAreClean(ss);
    FormIsEffect(c, ToPairs(ss));
    EffectIsSetAll(c, ss);
  }

  // ---- Numbers of any size -------------------------------------------------------------------

  function DecimalNat(n: nat): (s: string)
    ensures s != "" && forall c <- s :: IsDigit(c)
  {
    var last := ['0' + (n % 10) as char];
    if n < 10 then last else DecimalNat(n / 10) + last
  }

  function Decimal(n: int): string {
    if n < 0 then "-" + DecimalNat(-n) else DecimalNat(n)
  }

  lemma {:induction false} DigitsAppend(s: string, c: char, acc: nat)
    requires IsDigit(c) && forall d <- s :: IsDigit(d)
    ensures Digits(s + [c], acc) == Digits(s, acc) * 10 + (c - '0') as nat
    decreases |s|
  {
    if s == "" {
      assert Digits([c], acc) == Digits([c][1..], acc * 10 + (c - '0') as nat);
    } else {
      assert s[0] in s && (s + [c])[1..] == s[1..] + [c];
      DigitsAppend(s[1..], c, acc * 10 + (s[0] - '0') as nat);
    }
  }

  lemma {:induction false} DigitsOfDecimal(n: nat)
    ensures Digits(DecimalNat(n), 0) == n
  {
    var last := '0' + (n % 10) as char;
    if n < 10 {
      assert [last][1..] == "";
    } else {
      DigitsOfDecimal(n / 10);
      DigitsAppend(DecimalNat(n / 10), last, 0);
    }
  }

  lemma {:induction false} DigitsStop(s: string, rest: string, acc: nat)
    requires (forall d <- s :: IsDigit(d)) && (rest == "" || !IsDigit(rest[0]))
    ensures Digits(s + rest, acc) == Digits(s, acc)
    decreases |s|
  {
    if s == "" {
      assert s + rest == rest;
    } else {
      assert s[0] in s && (s + rest)[1..] == s[1..] + rest;
      DigitsStop(s[1..], rest, acc * 10 + (s[0] - '0') as nat);
    }
  }

  lemma DecimalReads(n: nat, rest: string)
    requires rest == "" || !IsDigit(rest[0])
    ensures var s := DecimalNat(n) + rest; s != "" && IsDigit(s[0]) && Digits(s, 0) == n
  {
    var digits := DecimalNat(n);
    assert digits[0] in digits;
    DigitsOfDecimal(n);
    DigitsStop(digits, rest, 0);
  }

  /** A number that fits an int is read back, up to the first character that is not a digit; one
      that does not fit is read as 0. */
  lemma FromCharsOfDecimal(n: int, rest: string)
    requires rest == "" || !IsDigit(rest[0])
    ensures FromChars(Decimal(n) + rest) == if -0x8000_0000 <= n < 0x8000_0000 then n else 0
  {
    if n < 0 {
      NegativeDecimal(-n, rest);
      DecimalReads(-n, rest);
      SignedReads(DecimalNat(-n) + rest, -n);
    } else {
      DecimalReads(n, rest);
      SignedReads(DecimalNat(n) + rest, n);
    }
  }

  lemma NegativeDecimal(n: nat, rest: string)
    requires n > 0
    ensures Decimal(-(n as int)) + rest == "-" + (DecimalNat(n) + rest)
  {
  }

  lemma SignedReads(t: string, n: nat)
    requires t != "" && IsDigit(t[0]) && Digits(t, 0) == n
    ensures FromChars(t) == if n < 0x8000_0000 then n else 0
    ensures FromChars("-" + t) == if n <= 0x8000_0000 then -(n as int) else 0
  {
    assert ("-" + t)[1..] == t;
  }

  /** Without a digit at its start, or right after a minus sign, a value is read as 0. */
  lemma NotANumber(s: string)
    requires s == "" || (s[0] != '-' && !IsDigit(s[0])) || (s[0] == '-' && (|s| == 1 || !IsDigit(s[1])))
    ensures FromChars(s) == 0
  {
  }

  lemma DecimalIsClean(n: int)
    ensures Clean(Decimal(n)) && Decimal(n) != ""
  {
    var digits := DecimalNat(if n < 0 then -n else n);
    forall i | 0 <= i < |digits| ensures IsDigit(digits[i]) {
      assert digits[i] in digits;
    }
  }

  /** Whatever number a form gives, the alliance is clamped to 0..3 and a mode outside 0..3 is
      Unknown; a number too large for an int counts as 0. */
  lemma {:induction false} NumbersPosted(c: Control, mode: int, alliance: int)
    ensures var ps := [Pair("mode", Decimal(mode)), Pair("alliance", Decimal(alliance))];
      var c' := Replay(c, FormWrites(Render(ps)));
      var m := if -0x8000_0000 <= mode < 0x8000_0000 then mode else 0;
      var a := if -0x8000_0000 <= alliance < 0x8000_0000 then alliance else 0;
      && c'.mode == (if m == 1 then Encoder.RobotMode.Auto else if m == 2 then Encoder.RobotMode.Teleop
                     else if m == 3 then Encoder.RobotMode.Test else Encoder.RobotMode.Unknown)
      && c'.alliance == (if a < 0 then 0 else if a > 3 then 3 else a)
      && c'.enabled == c.enabled && c'.eStop == c.eStop
  {
    DecimalIsClean(mode);
    DecimalIsClean(alliance);
    PostsModeAndAlliance(c, Decimal(mode), Decimal(alliance));
    FromCharsOfDecimal(mode, "");
    FromCharsOfDecimal(alliance, "");
    assert Decimal(mode) + "" == Decimal(mode) && Decimal(alliance) + "" == Decimal(alliance);
  }

  lemma {:induction false} PostsModeAndAlliance(c: Control, mode: string, alliance: string)
    requires Clean(mode) && Clean(alliance) && mode != "" && alliance != ""
    ensures Replay(c, FormWrites(Render([Pair("mode", mode), Pair("alliance", alliance)])))
         == c.(mode := Encoder.ModeFromInt(FromChars(mode)), alliance := Min(Max(FromChars(alliance), 0), 3))
  {
    var p, q := Pair("mode", mode), Pair("alliance", alliance);
    assert KEYS[2] == "mode" && KEYS[3] == "alliance";
    FormIsEffect(c, [p, q]);
    LookupInTwo(p, q, "enabled");
    LookupInTwo(p, q, "estop");
    LookupInTwo(p, q, "mode");
    LookupInTwo(p, q, "alliance");
  }

  lemma {:induction false} LookupInTwo(p: Pair, q: Pair, key: string)
    ensures Lookup([p, q], key) == if p.key == key then p.value else if q.key == key then q.value else ""
  {
    assert [p, q][1..] == [q] && [q][1..] == [];
    assert Lookup([q], key) == if q.key == key then q.value else "";
  }
}
