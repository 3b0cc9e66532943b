/** The deadline-aligned loop every periodic thread of the daemon runs. The environment decides
    when a stop is seen, how late the thread wakes and how long each tick takes. */
module PeriodicTask {
  import opened Units

  /** One round of the loop as the environment plays it. */
  datatype Round = Round(stopBefore: bool, latency: nat, stopAfterSleep: bool, cost: nat)

  function Deadline(t0: int, period: nat, k: nat): int {
    if k == 0 then t0 + period else Deadline(t0, period, k - 1) + period
  }

  /** When tick `k` starts: on its deadline or as soon as the loop is free, plus the latency. */
  function Start(t0: int, period: nat, env: seq<Round>, k: nat): int
    requires k < |env|
    decreases k, 1
  {
    Max(Free(t0, period, env, k), Deadline(t0, period, k)) + env[k].latency
  }

  /** When the loop is back at its sleep after `k` ticks. */
  function Free(t0: int, period: nat, env: seq<Round>, k: nat): int
    requires k <= |env|
    decreases k, 0
  {
    if k == 0 then t0 else Start(t0, period, env, k - 1) + env[k - 1].cost
  }

  /** How late tick `k` starts. */
  function Lateness(t0: int, period: nat, env: seq<Round>, k: nat): int
    requires k < |env|
  {
    Start(t0, period, env, k) - Deadline(t0, period, k)
  }

  /** How many ticks run before a stop is seen, on either side of the sleep. */
  function Ran(env: seq<Round>): (n: nat)
    ensures n <= |env|
    ensures forall i :: 0 <= i < n ==> !env[i].stopBefore && !env[i].stopAfterSleep
    ensures n < |env| ==> env[n].stopBefore || env[n].stopAfterSleep
  {
    if env == [] || env[0].stopBefore || env[0].stopAfterSleep then 0 else 1 + Ran(env[1..])
  }

  function Starts(t0: int, period: nat, env: seq<Round>, n: nat): seq<int>
    requires n <= |env|
  {
    seq(n, k requires 0 <= k < n => Start(t0, period, env, k))
  }

  /** The loop. The tick itself is represented by the instant at which it is called. */
  method RunPeriodic(t0: int, period: nat, env: seq<Round>) returns (ticks: seq<int>)
    ensures ticks == Starts(t0, period, env, Ran(env))
    ensures forall i :: 0 <= i < |ticks| ==> !env[i].stopBefore && !env[i].stopAfterSleep
    ensures |ticks| < |env| ==> env[|ticks|].stopBefore || env[|ticks|].stopAfterSleep
  {
    ticks := [];
    var clock := t0;
    var deadline := t0 + period;
    var i := 0;
    while i < |env| && !env[i].stopBefore
      invariant 0 <= i <= |env|
      invariant Ran(env) == i + Ran(env[i..])
      invariant ticks == Starts(t0, period, env, i)
      invariant clock == Free(t0, period, env, i)
      invariant deadline == Deadline(t0, period, i)
    {
      assert env[i..][1..] == env[i + 1..];
      clock := Max(clock, deadline) + env[i].latency;
      if env[i].stopAfterSleep { break; }
      deadline := deadline + period;
      ticks := ticks + [clock];
      assert Ran(env[i..]) == 1 + Ran(env[i + 1..]);
      clock := clock + env[i].cost;
      i := i + 1;
    }
  }

  // ---- Lateness ------------------------------------------------------------------------------

  /** Lateness depends only on the tick before it and on the wake-up. */
  lemma LatenessStep(t0: int, period: nat, env: seq<Round>, k: nat)
    requires k < |env|
    ensures Lateness(t0, period, env, k)
         == env[k].latency
          + (if k == 0 then 0 else Max(Lateness(t0, period, env, k - 1) + env[k - 1].cost - period, 0))
  {
    assert Free(t0, period, env, k)
        == if k == 0 then t0 else Start(t0, period, env, k - 1) + env[k - 1].cost;
  }

  /** Deadlines never drift, and no tick starts before its own. */
  lemma {:induction false} NeverEarly(t0: int, period: nat, env: seq<Round>, k: nat)
    requires k < |env|
    ensures Start(t0, period, env, k) >= Deadline(t0, period, k) == t0 + (k + 1) * period
  {
    if k > 0 {
      NeverEarly(t0, period, env, k - 1);
      assert (k + 1) * period == k * period + period;
    }
  }

  /** Every wake-up at most `w` late and every tick at most `c` long, from round `m` on. */
  predicate Bounded(env: seq<Round>, m: nat, w: nat, c: nat) {
    forall i :: m <= i < |env| ==> env[i].latency <= w && env[i].cost <= c
  }

  /** With slack `period - w - c`, any lateness decays by that much a tick, down to `w`. */
  lemma {:induction false} LatenessDecays(t0: int, period: nat, env: seq<Round>, m: nat, k: nat, w: nat, c: nat)
    requires m <= k < |env| && w + c <= period
    requires Bounded(env, m + 1, w, c) && env[m].cost <= c
    ensures Lateness(t0, period, env, k)
         <= Max(Lateness(t0, period, env, m) - (k - m) * (period - w - c), w)
  {
    LatenessStep(t0, period, env, k);
    if m < k {
      LatenessDecays(t0, period, env, m, k - 1, w, c);
      DecayStep(Lateness(t0, period, env, m), Lateness(t0, period, env, k - 1), period - w - c, k - 1 - m, w);
    }
  }

  lemma DecayStep(first: int, late: int, slack: nat, n: nat, w: nat)
    requires late <= Max(first - n * slack, w)
    ensures w + Max(late - w - slack, 0) <= Max(first - (n + 1) * slack, w)
  {
    assert (n + 1) * slack == n * slack + slack;
  }

  /** Within that many ticks of a stall, of whatever length, the loop is on time again for good. */
  lemma StallForgotten(t0: int, period: nat, env: seq<Round>, m: nat, k: nat, w: nat, c: nat)
    requires m <= k < |env| && w + c < period
    requires Bounded(env, m + 1, w, c) && env[m].cost <= c
    requires k - m >= (Max(Lateness(t0, period, env, m) - w, 0) + (period - w - c) - 1) / (period - w - c)
    ensures Lateness(t0, period, env, k) <= w
  {
    LatenessDecays(t0, period, env, m, k, w, c);
    var late, slack := Max(Lateness(t0, period, env, m) - w, 0), period - w - c;
    CeilingCovers(late, slack, k - m);
  }

  lemma CeilingCovers(late: nat, slack: nat, n: nat)
    requires slack > 0 && n >= (late + slack - 1) / slack
    ensures n * slack >= late
  {
  }

  /** On time from the first tick on. */
  lemma {:induction false} StaysOnTime(t0: int, period: nat, env: seq<Round>, k: nat, w: nat, c: nat)
    requires k < |env| && w + c <= period && Bounded(env, 0, w, c)
    ensures 0 <= Lateness(t0, period, env, k) <= w
  {
    LatenessStep(t0, period, env, k);
    if k > 0 {
      StaysOnTime(t0, period, env, k - 1, w, c);
    }
  }

  function Overloaded(w: nat, c: nat, n: nat): seq<Round> {
    seq(n, _ => Round(false, w, false, c))
  }

  /** An overload of `w + c - period` a tick accumulates for ever. */
  lemma {:induction false} OverloadAccumulates(t0: int, period: nat, w: nat, c: nat, n: nat, k: nat)
    requires w + c > period && k < n
    ensures Lateness(t0, period, Overloaded(w, c, n), k) == w + k * (w + c - period)
    decreases k
  {
    LatenessStep(t0, period, Overloaded(w, c, n), k);
    if k > 0 {
      OverloadAccumulates(t0, period, w, c, n, k - 1);
      var excess := w + c - period;
      assert k * excess == (k - 1) * excess + excess;
      assert (k - 1) * excess >= 0;
    }
  }

  /** Wake-ups at most `w` late and ticks at most `c` long keep every run at most `w` late exactly
      when the two fit in the period. */
  lemma OnTimeIffFits(t0: int, period: nat, w: nat, c: nat)
    ensures (forall env: seq<Round>, k: nat | k < |env| && Bounded(env, 0, w, c) ::
               Lateness(t0, period, env, k) <= w)
        <==> w + c <= period
  {
    if w + c <= period {
      forall env: seq<Round>, k: nat | k < |env| && Bounded(env, 0, w, c)
        ensures Lateness(t0, period, env, k) <= w
      {
        StaysOnTime(t0, period, env, k, w, c);
      }
    } else {
      var env := Overloaded(w, c, 2);
      OverloadAccumulates(t0, period, w, c, 2, 1);
      assert Bounded(env, 0, w, c) && Lateness(t0, period, env, 1) > w;
    }
  }

  /** Two consecutive ticks are one period apart, give or take their lateness. */
  lemma IntervalIsPeriodPlusLateness(t0: int, period: nat, env: seq<Round>, k: nat)
    requires 0 < k < |env|
    ensures Start(t0, period, env, k) - Start(t0, period, env, k - 1)
         == period + Lateness(t0, period, env, k) - Lateness(t0, period, env, k - 1)
    ensures Lateness(t0, period, env, k - 1) >= 0
    ensures Start(t0, period, env, k - 1) <= Start(t0, period, env, k)
  {
  }
}
