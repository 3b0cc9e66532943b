/** The periodic publisher: it records how long ago it last ran, takes a view of the shared state,
    encodes it and publishes the bytes. */
module ControlDataPublisher {
  import opened Units
  import opened BitOps
  import opened Protobuf
  import opened ControlDataEncoder
  import opened DaemonState
  import opened DaemonTester
  import opened PeriodicTask
  import opened CadenceTracker
  import opened Healthz

  // ---- The message ---------------------------------------------------------------------------

  predicate OtherFields(fs: seq<Field>) {
    forall f <- fs :: WellFormed(f) && !IsControlWordField(f)
  }

  /** The ControlData message: ControlWord is field 5 and omitted when it is 0; `before` and
      `after` are the message's other fields. Nothing comes out if it does not fit. */
  function EncodeControlData(v: ControlDataView, before: seq<Field>, after: seq<Field>, capacity: nat): seq<byte>
    requires OtherFields(before) && OtherFields(after)
  {
    var w := Layout(v);
    var word := if w == 0 then [] else WireField(ControlWordField(w));
    var message := Wire(before) + (word + Wire(after));
    if capacity == 0 || |message| > capacity then [] else message
  }

  lemma {:induction false} WireAppends(a: seq<Field>, b: seq<Field>)
    requires OtherFields(a) && OtherFields(b)
    ensures Wire(a + b) == Wire(a) + Wire(b)
  {
    if a == [] {
      assert a + b == b;
    } else {
      var f, rest := a[0], a[1..];
      WireAppends(rest, b);
      Prepended(f, a, b);
      WireStep(f, rest);
      WireStep(f, rest + b);
      Associates(WireField(f), Wire(rest), Wire(b));
    }
  }

  lemma Prepended(f: Field, a: seq<Field>, b: seq<Field>)
    requires a != [] && a[0] == f
    ensures a == [f] + a[1..] && a + b == [f] + (a[1..] + b)
  {
  }

  lemma WireStep(f: Field, rest: seq<Field>)
    requires OtherFields([f] + rest)
    ensures WellFormed(f) && OtherFields(rest) && Wire([f] + rest) == WireField(f) + Wire(rest)
  {
    assert f in [f] + rest && forall g <- rest :: g in [f] + rest;
    assert ([f] + rest)[1..] == rest;
  }

  lemma Associates(a: seq<byte>, b: seq<byte>, c: seq<byte>)
    ensures a + b + c == a + (b + c)
  {
  }

  /** Whenever something is published, the tester reads the packed word back from it, whatever the
      other fields are, and whether or not the word was worth a field. */
  lemma PublishedWordDecodes(v: ControlDataView, before: seq<Field>, after: seq<Field>, capacity: nat)
    requires OtherFields(before) && OtherFields(after) && capacity <= MAX_ARRAY
    ensures var m := EncodeControlData(v, before, after, capacity);
      m != [] ==> |m| <= capacity && Scan(m, |m|) == Word(Layout(v))
  {
    var m, w := EncodeControlData(v, before, after, capacity), Layout(v);
    if m != [] {
      if w == 0 {
        WireAppends(before, after);
        assert m == Wire(before + after) by {
          assert [] + Wire(after) == Wire(after);
        }
        ControlWordAbsent(before + after);
      } else {
        ControlWordFound(before, w, Wire(after));
      }
    }
  }

  // ---- What the tracker holds after a run ----------------------------------------------------

  function IntervalAt(last: int, times: seq<int>, i: nat): int
    requires i < |times|
  {
    TruncToUs(times[i] - (if i == 0 then last else times[i - 1]))
  }

  /** The intervals recorded by ticks at these times, the first one counted from `last`. */
  function Intervals(last: int, times: seq<int>): (r: seq<int>)
    ensures |r| == |times|
  {
    seq(|times|, i requires 0 <= i < |times| => IntervalAt(last, times, i))
  }

  /** Each interval is the whole microseconds since the tick before it, or since `last`. */
  lemma IntervalsAre(last: int, times: seq<int>, i: nat)
    requires i < |times| && (if i == 0 then last else times[i - 1]) <= times[i]
    ensures var us := Intervals(last, times)[i];
      us * 1_000 <= times[i] - (if i == 0 then last else times[i - 1]) < (us + 1) * 1_000
  {
    Truncates(times[i] - (if i == 0 then last else times[i - 1]));
  }

  lemma IntervalsStep(history: seq<int>, last: int, times: seq<int>, i: nat)
    requires i < |times|
    ensures history + Intervals(last, times)[..i] + [IntervalAt(last, times, i)]
         == history + Intervals(last, times)[..i + 1]
  {
  }

  /** The intervals recorded by the first `n` ticks of the periodic loop. */
  function Recorded(last: int, t0: int, period: nat, env: seq<Round>, n: nat): seq<int>
    requires n <= |env|
  {
    Intervals(last, Starts(t0, period, env, n))
  }

  // ---- What is published over a run ----------------------------------------------------------

  const MAX_BYTES: nat := 256

  /** The fields around ControlWord in one message. */
  datatype Rest = Rest(before: seq<Field>, after: seq<Field>) {
    predicate Proper() {
      OtherFields(before) && OtherFields(after)
    }

    /** The message, when these setter calls have been made. */
    function Encode(calls: seq<Write>): seq<byte>
      requires Proper()
    {
      EncodeControlData(ViewOf(Replay(INITIAL, calls)), before, after, MAX_BYTES)
    }

    /** Room is left for ControlWord. */
    predicate Fits()
      requires Proper()
    {
      |Wire(before)| + |Wire(after)| + 3 <= 256
    }
  }

  /** What surrounds one tick: the setter calls that other threads make between the view taken
      before and the view this tick takes, and the rest of the message. */
  datatype Moment = Moment(writes: seq<Write>, rest: Rest)

  /** A message is published exactly when it fits in 256 bytes, with ControlWord between the other
      fields: a byte 0x28 and the word as a varint. */
  lemma PublishedIffFits(rest: Rest, calls: seq<Write>)
    requires rest.Proper()
    ensures var word := EncodeVarint(Layout(ViewOf(Replay(INITIAL, calls))));
      var message := Wire(rest.before) + ([0x28] + word + Wire(rest.after));
      rest.Encode(calls) == if |message| <= 256 then message else []
  {
    var v := ViewOf(Replay(INITIAL, calls));
    LayoutDigits(v);
    assert WireField(ControlWordField(Layout(v))) == [0x28] + EncodeVarint(Layout(v));
  }

  predicate AllProper(moments: seq<Moment>) {
    forall i :: 0 <= i < |moments| ==> moments[i].rest.Proper()
  }

  /** The setter calls made up to the first `n` views. */
  function Written(moments: seq<Moment>, n: nat): seq<Write>
    requires n <= |moments|
  {
    if n == 0 then [] else Written(moments, n - 1) + moments[n - 1].writes
  }

  /** The view of tick `i`, when `calls` were made before the run. */
  function ViewAt(calls: seq<Write>, moments: seq<Moment>, i: nat): ControlDataView
    requires i < |moments|
  {
    ViewOf(Replay(INITIAL, calls + Written(moments, i + 1)))
  }

  function MessageAt(calls: seq<Write>, moments: seq<Moment>, i: nat): seq<byte>
    requires AllProper(moments) && i < |moments|
  {
    moments[i].rest.Encode(calls + Written(moments, i + 1))
  }

  function UnlessEmpty(bytes: seq<byte>): seq<seq<byte>> {
    if bytes == [] then [] else [bytes]
  }

  function NonEmpty(messages: seq<seq<byte>>): seq<seq<byte>> {
    if messages == [] then []
    else NonEmpty(messages[..|messages| - 1]) + UnlessEmpty(messages[|messages| - 1])
  }

  /** What the first `n` ticks encode. */
  function Encoded(calls: seq<Write>, moments: seq<Moment>, n: nat): (ms: seq<seq<byte>>)
    requires AllProper(moments) && n <= |moments|
    ensures |ms| == n
  {
    seq(n, i requires 0 <= i < n => MessageAt(calls, moments, i))
  }

  /** What they publish. */
  function Messages(calls: seq<Write>, moments: seq<Moment>, n: nat): seq<seq<byte>>
    requires AllProper(moments) && n <= |moments|
  {
    NonEmpty(Encoded(calls, moments, n))
  }

  lemma WireWordIsShort(v: ControlDataView)
    ensures |WireField(ControlWordField(Layout(v)))| <= 3
  {
    var w := Layout(v);
    if w >= 128 {
      assert EncodeVarint(w / 128) == [w / 128];
    }
  }

  /** A message that has room is published, as the word is never 0 (DsConnected is always set), and
      decodes to it. */
  lemma MessageDecodes(calls: seq<Write>, moments: seq<Moment>, i: nat)
    requires AllProper(moments) && i < |moments| && moments[i].rest.Fits()
    ensures var m := MessageAt(calls, moments, i);
      m != [] && Scan(m, |m|) == Word(Layout(ViewAt(calls, moments, i)))
  {
    WireWordIsShort(ViewAt(calls, moments, i));
    PublishedWordDecodes(ViewAt(calls, moments, i), moments[i].rest.before, moments[i].rest.after, MAX_BYTES);
  }

  lemma {:induction false} NothingDropped(messages: seq<seq<byte>>)
    requires forall i :: 0 <= i < |messages| ==> messages[i] != []
    ensures NonEmpty(messages) == messages
  {
    if messages != [] {
      NothingDropped(messages[..|messages| - 1]);
      assert messages == messages[..|messages| - 1] + [messages[|messages| - 1]];
    }
  }

  /** As long as the other fields leave room, tick by tick and in order, the tester decodes exactly
      the state as each tick's view found it, whatever other threads wrote in the meantime. */
  lemma RunDecodes(calls: seq<Write>, moments: seq<Moment>, n: nat)
    requires AllProper(moments) && n <= |moments| && forall i :: 0 <= i < n ==> moments[i].rest.Fits()
    ensures var ms := Messages(calls, moments, n);
      && |ms| == n
      && forall i :: 0 <= i < n ==> Scan(ms[i], |ms[i]|) == Word(Layout(ViewAt(calls, moments, i)))
  {
    var ms := Encoded(calls, moments, n);
    forall i | 0 <= i < n
      ensures ms[i] != [] && Scan(ms[i], |ms[i]|) == Word(Layout(ViewAt(calls, moments, i)))
    {
      MessageDecodes(calls, moments, i);
    }
    NothingDropped(ms);
  }

  lemma WrittenStep(calls: seq<Write>, moments: seq<Moment>, i: nat)
    requires i < |moments|
    ensures calls + Written(moments, i) + moments[i].writes == calls + Written(moments, i + 1)
  {
  }

  lemma NonEmptyStep(published: seq<seq<byte>>, messages: seq<seq<byte>>, i: nat)
    requires i < |messages|
    ensures published + NonEmpty(messages[..i]) + UnlessEmpty(messages[i]) == published + NonEmpty(messages[..i + 1])
  {
    assert messages[..i + 1][..i] == messages[..i];
  }

  /** All that a run changes: the time of the last tick, the recorded intervals, the setter calls
      made, and what the sink has been given. */
  datatype Progress = Progress(last: int, history: seq<int>, calls: seq<Write>, published: seq<seq<byte>>)

  /** The effect of other threads' setter calls. */
  function AfterWrites(p: Progress, ws: seq<Write>): Progress {
    p.(calls := p.calls + ws)
  }

  /** The effect of one tick that encodes `bytes`. */
  function AfterTick(p: Progress, now: int, bytes: seq<byte>): Progress {
    Progress(now, p.history + [TruncToUs(now - p.last)], p.calls, p.published + UnlessEmpty(bytes))
  }

  /** The effect of the first `n` ticks, at the times `ticks`, that encode `messages`. */
  function AfterTicks(p: Progress, ticks: seq<int>, moments: seq<Moment>, messages: seq<seq<byte>>, n: nat): Progress
    requires n <= |ticks| <= |moments| && |ticks| <= |messages|
  {
    Progress(if n == 0 then p.last else ticks[n - 1],
             p.history + Intervals(p.last, ticks)[..n],
             p.calls + Written(moments, n),
             p.published + NonEmpty(messages[..n]))
  }

  lemma AfterTicksStep(p: Progress, ticks: seq<int>, moments: seq<Moment>, messages: seq<seq<byte>>, n: nat)
    requires n < |ticks| <= |moments| && |ticks| <= |messages|
    ensures AfterTick(AfterWrites(AfterTicks(p, ticks, moments, messages, n), moments[n].writes), ticks[n], messages[n])
         == AfterTicks(p, ticks, moments, messages, n + 1)
  {
    IntervalsStep(p.history, p.last, ticks, n);
    WrittenStep(p.calls, moments, n);
    NonEmptyStep(p.published, messages, n);
  }

  lemma AfterAllTicks(intervals: seq<int>, messages: seq<seq<byte>>)
    ensures intervals[..|intervals|] == intervals && messages[..|messages|] == messages
  {
  }

  lemma AfterNoTicks(p: Progress, ticks: seq<int>, moments: seq<Moment>, messages: seq<seq<byte>>)
    requires |ticks| <= |moments| && |ticks| <= |messages|
    ensures AfterTicks(p, ticks, moments, messages, 0) == p
  {
  }

  /** What a tick encodes, from the setter calls made before it and while it waits. */
  lemma EncodedAt(calls: seq<Write>, moments: seq<Moment>, n: nat, i: nat)
    requires AllProper(moments) && i < n <= |moments|
    ensures moments[i].rest.Proper()
    ensures Encoded(calls, moments, n)[i] == moments[i].rest.Encode(calls + Written(moments, i) + moments[i].writes)
  {
    WrittenStep(calls, moments, i);
  }

  /** The setter calls of other threads. */
  method WriteAll(state: DaemonState, ws: seq<Write>)
    requires state.Valid()
    modifies state
    ensures state.Valid() && state.calls == old(state.calls) + ws
  {
    for i := 0 to |ws|
      invariant state.Valid() && state.calls == old(state.calls) + ws[..i]
    {
      WriteOne(state, ws[i]);
      assert ws[..i + 1] == ws[..i] + [ws[i]];
    }
    assert ws[..|ws|] == ws;
  }

  method WriteOne(state: DaemonState, w: Write)
    requires state.Valid()
    modifies state
    ensures state.Valid() && state.calls == old(state.calls) + [w]
  {
    match w {
      case SetEnabled(v) => state.SetEnabled(v);
      case SetMode(m) => state.SetMode(m);
      case SetAlliance(a) => state.SetAlliance(a);
      case SetEStop(v) => state.SetEStop(v);
      case SetMatchTime(t) => state.SetMatchTime(t);
    }
  }

  // ---- The publisher -------------------------------------------------------------------------

  class ControlDataPublisher {
    const state: DaemonState
    const cadence: CadenceTracker
    var last: int
    var published: seq<seq<byte>>  // what the sink has been given

    ghost predicate Valid()
      reads this, state, cadence, cadence.samples, cadence.sortedCache
    {
      state.Valid() && cadence.Valid()
    }

    constructor (state: DaemonState, cadence: CadenceTracker, now: int)
      ensures this.state == state && this.cadence == cadence && last == now && published == []
    {
      this.state, this.cadence := state, cadence;
      last, published := now, [];
    }

    ghost function Made(): Progress
      reads this, state, cadence
    {
      Progress(last, cadence.history, state.calls, published)
    }

    /** One tick at `now`. */
    method Tick(now: int, rest: Rest)
      requires Valid() && rest.Proper()
      modifies this, cadence, cadence.samples
      ensures Valid() && Made() == AfterTick(old(Made()), now, rest.Encode(state.calls))
    {
      cadence.RecordIntervalUs(TruncToUs(now - last));
      last := now;
      PublishView(rest);
    }

    /** Takes a view, encodes it and gives the sink what comes out. */
    method PublishView(rest: Rest)
      requires state.Valid() && rest.Proper()
      modifies this`published
      ensures published == old(published) + UnlessEmpty(rest.Encode(state.calls))
    {
      var view := state.SnapshotControl();
      var bytes := EncodeControlData(view, rest.before, rest.after, MAX_BYTES);
      if |bytes| == 0 {
        return;
      }
      published := published + [bytes];
    }

    /** A whole run: `started` is the time read before the loop. */
    method Run(started: int, t0: int, period: nat, env: seq<Round>, moments: seq<Moment>)
      requires Valid() && |moments| == |env| && AllProper(moments)
      modifies this, state, cadence, cadence.samples
      ensures Valid()
      ensures cadence.history == old(cadence.history) + Recorded(started, t0, period, env, Ran(env))
      ensures published == old(published) + Messages(old(state.calls), moments, Ran(env))
      ensures state.calls == old(state.calls) + Written(moments, Ran(env))
    {
      last := started;
      var ticks := RunPeriodic(t0, period, env);
      RunTicks(ticks, moments);
      AfterAllTicks(Intervals(started, ticks), Encoded(old(state.calls), moments, |ticks|));
    }

    method RunTicks(ticks: seq<int>, moments: seq<Moment>)
      requires Valid() && |ticks| <= |moments| && AllProper(moments)
      modifies this, state, cadence, cadence.samples
      ensures Valid()
      ensures var start := old(Made());
        Made() == AfterTicks(start, ticks, moments, Encoded(start.calls, moments, |ticks|), |ticks|)
    {
      ghost var start := Made();
      ghost var messages := Encoded(start.calls, moments, |ticks|);
      AfterNoTicks(start, ticks, moments, messages);
      for i := 0 to |ticks|
        invariant Valid() && Made() == AfterTicks(start, ticks, moments, messages, i)
      {
        AfterTicksStep(start, ticks, moments, messages, i);
        EncodedAt(start.calls, moments, |ticks|, i);
        TickAmid(ticks[i], moments[i]);
      }
    }

    /** One tick, after what other threads write before its view. */
    method TickAmid(now: int, moment: Moment)
      requires Valid() && moment.rest.Proper()
      modifies this, state, cadence, cadence.samples
      ensures Valid()
      ensures var p := AfterWrites(old(Made()), moment.writes);
        Made() == AfterTick(p, now, moment.rest.Encode(p.calls))
    {
      WriteAll(state, moment.writes);
      Tick(now, moment.rest);
    }
  }

  // ---- Health over a run ---------------------------------------------------------------------

  lemma IntervalOnTime(last: int, t0: int, period: nat, env: seq<Round>, n: nat, i: nat, w: nat)
    requires 0 < i < n <= |env| && Lateness(t0, period, env, i) <= w
    ensures 0 <= Recorded(last, t0, period, env, n)[i] <= (period + w) / 1_000
  {
    IntervalIsPeriodPlusLateness(t0, period, env, i);
  }

  /** A publisher on time stays healthy for the whole run, and no percentile reaches 25 ms. */
  lemma {:induction false} OnTimeIsHealthy(last: int, t0: int, period: nat, env: seq<Round>, n: nat, w: nat, c: nat)
    requires n <= |env| && Bounded(env, 0, w, c) && w + c <= period
    requires last <= t0 && t0 - last + period + w < 25_000_000
    ensures var h := Recorded(last, t0, period, env, n); Healthy(h) && Maximum(h) < 25.0
  {
    var h := Recorded(last, t0, period, env, n);
    forall i | 0 <= i < n ensures h[i] < SLOW_US {
      StaysOnTime(t0, period, env, i, w, c);
      if i > 0 {
        IntervalOnTime(last, t0, period, env, n, i, w);
      }
    }
    FastWindowHealthy(h);
  }

  /** However long a stall ending with tick `m`, the verdict is 200 again, and stays so, once the
      lateness has decayed and 1024 further intervals have been recorded. */
  lemma StallHealed(last: int, t0: int, period: nat, env: seq<Round>, n: nat, m: nat, k: nat, w: nat, c: nat)
    requires m <= k && k + 1 + CAPACITY <= n <= |env| && w + c < period
    requires Bounded(env, m + 1, w, c) && env[m].cost <= c && period + w < 25_000_000
    requires k - m >= (Max(Lateness(t0, period, env, m) - w, 0) + (period - w - c) - 1) / (period - w - c)
    ensures Healthy(Recorded(last, t0, period, env, n))
  {
    var h := Recorded(last, t0, period, env, n);
    forall i | n - CAPACITY <= i < n ensures h[i] < SLOW_US {
      StallForgotten(t0, period, env, m, i, w, c);
      IntervalOnTime(last, t0, period, env, n, i, w);
    }
    FastWindowHealthy(h);
  }

  function Sum(s: seq<int>): int {
    if s == [] then 0 else Sum(s[..|s| - 1]) + s[|s| - 1]
  }

  /** The recorded microseconds account for the elapsed time, short of at most one per interval. */
  lemma {:induction false} IntervalsAddUp(last: int, times: seq<int>)
    requires times != [] && last <= times[0]
    requires forall i :: 0 < i < |times| ==> times[i - 1] <= times[i]
    ensures var elapsed, total := times[|times| - 1] - last, Sum(Intervals(last, times)) * 1_000;
      elapsed - |times| * 1_000 < total <= elapsed
  {
    var n := |times| - 1;
    assert Intervals(last, times)[..n] == Intervals(last, times[..n]);
    if n > 0 {
      IntervalsAddUp(last, times[..n]);
    }
  }
}
