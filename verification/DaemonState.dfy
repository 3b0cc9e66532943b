/** The shared driver-station state. Every setter is one critical section, so what any thread can
    observe is the replay of some prefix of the setter calls made so far. */
module DaemonState {
  import opened ControlDataEncoder

  datatype Write =
    | SetEnabled(enabled: bool)
    | SetMode(mode: RobotMode)
    | SetAlliance(alliance: int)
    | SetEStop(eStop: bool)
    | SetMatchTime(seconds: int)

  datatype Control = Control(enabled: bool, mode: RobotMode, alliance: int, eStop: bool, matchTime: int)

  const INITIAL := Control(false, Unknown, 0, false, 0)

  function Apply(c: Control, w: Write): Control {
    match w
    case SetEnabled(v) => c.(enabled := v)
    case SetMode(m) => c.(mode := m)
    case SetAlliance(a) => c.(alliance := a)
    case SetEStop(v) => c.(eStop := v)
    case SetMatchTime(s) => c.(matchTime := s)
  }

  /** The state after a sequence of setter calls. */
  function Replay(c: Control, ws: seq<Write>): Control {
    if ws == [] then c else Apply(Replay(c, ws[..|ws| - 1]), ws[|ws| - 1])
  }

  lemma {:induction false} ReplayAppends(c: Control, a: seq<Write>, b: seq<Write>)
    ensures Replay(c, a + b) == Replay(Replay(c, a), b)
  {
    if b == [] {
      assert a + b == a;
    } else {
      var n := |b| - 1;
      assert (a + b)[..|a + b| - 1] == a + b[..n];
      ReplayAppends(c, a, b[..n]);
    }
  }

  /** A setter call made on a condition. */
  function When(b: bool, w: Write): seq<Write> {
    if b then [w] else []
  }

  lemma ReplayWhen(c: Control, b: bool, w: Write)
    ensures Replay(c, When(b, w)) == if b then Apply(c, w) else c
  {
  }

  lemma ReplayFour(c: Control, b1: bool, w1: Write, b2: bool, w2: Write, b3: bool, w3: Write, b4: bool, w4: Write)
    ensures var c1 := if b1 then Apply(c, w1) else c;
      var c2 := if b2 then Apply(c1, w2) else c1;
      var c3 := if b3 then Apply(c2, w3) else c2;
      Replay(c, When(b1, w1) + When(b2, w2) + When(b3, w3) + When(b4, w4)) == if b4 then Apply(c3, w4) else c3
  {
    var a, b := When(b1, w1), When(b2, w2);
    ReplayAppends(c, a + b + When(b3, w3), When(b4, w4));
    ReplayAppends(c, a + b, When(b3, w3));
    ReplayAppends(c, a, b);
    ReplayWhen(c, b1, w1);
    ReplayWhen(Replay(c, a), b2, w2);
    ReplayWhen(Replay(c, a + b), b3, w3);
    ReplayWhen(Replay(c, a + b + When(b3, w3)), b4, w4);
  }

  /** The calls come in increasing place, all from `lo` on and below `hi`. */
  predicate InOrder(ws: seq<Write>, place: Write -> nat, lo: nat, hi: nat) {
    && (forall i :: 0 <= i < |ws| ==> lo <= place(ws[i]) < hi)
    && (forall i, j :: 0 <= i < j < |ws| ==> place(ws[i]) < place(ws[j]))
  }

  lemma InOrderAppends(a: seq<Write>, b: bool, w: Write, place: Write -> nat, hi: nat)
    requires InOrder(a, place, 0, hi) && hi <= place(w)
    ensures InOrder(a + When(b, w), place, 0, place(w) + 1)
  {
  }

  lemma FourInOrder(b1: bool, w1: Write, b2: bool, w2: Write, b3: bool, w3: Write, b4: bool, w4: Write,
                    place: Write -> nat)
    requires place(w1) == 0 && place(w2) == 1 && place(w3) == 2 && place(w4) == 3
    ensures InOrder(When(b1, w1) + When(b2, w2) + When(b3, w3) + When(b4, w4), place, 0, 4)
  {
    var a := When(b1, w1);
    InOrderAppends(a, b2, w2, place, 1);
    InOrderAppends(a + When(b2, w2), b3, w3, place, 2);
    InOrderAppends(a + When(b2, w2) + When(b3, w3), b4, w4, place, 3);
  }

  lemma FourAppended(s: seq<Write>, a: seq<Write>, b: seq<Write>, c: seq<Write>, d: seq<Write>)
    ensures s + a + b + c + d == s + (a + b + c + d)
  {
  }

  /** The view a publisher takes under the lock. */
  function ViewOf(c: Control): ControlDataView {
    ControlDataView(c.enabled, true, false, c.eStop, false, c.mode, c.alliance, c.matchTime)
  }

  predicate SameSetter(x: Write, y: Write) {
    || (x.SetEnabled? && y.SetEnabled?) || (x.SetMode? && y.SetMode?) || (x.SetAlliance? && y.SetAlliance?)
    || (x.SetEStop? && y.SetEStop?) || (x.SetMatchTime? && y.SetMatchTime?)
  }

  /** The view has the value a setter was given. */
  predicate Seen(v: ControlDataView, w: Write) {
    match w
    case SetEnabled(on) => v.enabled == on
    case SetMode(m) => v.mode == m
    case SetAlliance(a) => v.alliance == a
    case SetEStop(on) => v.eStop == on
    case SetMatchTime(s) => v.matchTime == s
  }

  /** Every view shows the last call of each setter, whatever the other setters were called with
      before and after it. */
  lemma {:induction false} SettingSeen(ws: seq<Write>, w: Write, later: seq<Write>)
    requires forall x <- later :: !SameSetter(x, w)
    ensures Seen(ViewOf(Replay(INITIAL, ws + [w] + later)), w)
  {
    var all := ws + [w] + later;
    if later == [] {
      assert all[..|all| - 1] == ws && all[|all| - 1] == w;
    } else {
      var n := |later| - 1;
      assert all[..|all| - 1] == ws + [w] + later[..n] && all[|all| - 1] == later[n];
      assert later[n] in later && forall x <- later[..n] :: x in later;
      SettingSeen(ws, w, later[..n]);
    }
  }

  /** A setter never called leaves its field disabled, Unknown or 0. */
  lemma {:induction false} UnsetIsInitial(ws: seq<Write>)
    ensures var v := ViewOf(Replay(INITIAL, ws));
      && v.dsConnected && !v.fmsConnected && !v.supportsOpmodes
      && ((forall w <- ws :: !w.SetEnabled?) ==> !v.enabled)
      && ((forall w <- ws :: !w.SetMode?) ==> v.mode == Unknown)
      && ((forall w <- ws :: !w.SetAlliance?) ==> v.alliance == 0)
      && ((forall w <- ws :: !w.SetEStop?) ==> !v.eStop)
      && ((forall w <- ws :: !w.SetMatchTime?) ==> v.matchTime == 0)
  {
    if ws != [] {
      var n := |ws| - 1;
      UnsetIsInitial(ws[..n]);
      assert ws[n] in ws && forall w <- ws[..n] :: w in ws;
    }
  }

  class DaemonState {
    var enabled: bool
    var mode: RobotMode
    var alliance: int
    var eStop: bool
    var matchTime: int
    ghost var calls: seq<Write>  // every setter call so far, in lock order

    ghost function Fields(): Control
      reads this
    {
      Control(enabled, mode, alliance, eStop, matchTime)
    }

    ghost predicate Valid()
      reads this
    {
      Fields() == Replay(INITIAL, calls)
    }

    constructor ()
      ensures Valid() && calls == []
    {
      enabled, mode, alliance, eStop, matchTime := false, Unknown, 0, false, 0;
      calls := [];
    }

    method SetEnabled(v: bool)
      requires Valid()
      modifies this
      ensures Valid() && calls == old(calls) + [Write.SetEnabled(v)]
    {
      enabled := v;
      calls := calls + [Write.SetEnabled(v)];
    }

    method SetMode(m: RobotMode)
      requires Valid()
      modifies this
      ensures Valid() && calls == old(calls) + [Write.SetMode(m)]
    {
      mode := m;
      calls := calls + [Write.SetMode(m)];
    }

    method SetAlliance(a: int)
      requires Valid()
      modifies this
      ensures Valid() && calls == old(calls) + [Write.SetAlliance(a)]
    {
      alliance := a;
      calls := calls + [Write.SetAlliance(a)];
    }

    method SetEStop(v: bool)
      requires Valid()
      modifies this
      ensures Valid() && calls == old(calls) + [Write.SetEStop(v)]
    {
      eStop := v;
      calls := calls + [Write.SetEStop(v)];
    }

    method SetMatchTime(s: int)
      requires Valid()
      modifies this
      ensures Valid() && calls == old(calls) + [Write.SetMatchTime(s)]
    {
      matchTime := s;
      calls := calls + [Write.SetMatchTime(s)];
    }

    method SnapshotControl() returns (v: ControlDataView)
      requires Valid()
      ensures v == ViewOf(Replay(INITIAL, calls))
    {
      v := ControlDataView(enabled, true, false, eStop, false, mode, alliance, matchTime);
    }
  }
}
