/** The rolling tracker of publish intervals: a ring of the last 1024 samples with a sorted copy
    that is refreshed only when a read finds it stale. */
module CadenceTracker {
  import opened Units
  import opened Sorting

  const CAPACITY: nat := 1024

  // ---- The simple thing: keep every interval, sort the last 1024, index ----------------------

  function Window(history: seq<int>): (w: seq<int>)
    ensures |w| == Min(|history|, CAPACITY)
  {
    if |history| <= CAPACITY then history else history[|history| - CAPACITY..]
  }

  /** The fraction `num / den` of `n` samples, rounded down. */
  function Fraction(num: nat, den: nat, n: nat): nat
    requires den > 0
  {
    ScaledNonNegative(num, n, den);
    num * n / den
  }

  lemma ScaledNonNegative(num: nat, n: nat, den: nat)
    requires den > 0
    ensures num * n / den >= 0
  {
  }

  /** The index read for that fraction. */
  function PercentileIndex(n: nat, num: nat, den: nat): (i: nat)
    requires n > 0 && den > 0
    ensures i < n
  {
    var idx := Fraction(num, den, n);
    if idx >= n then n - 1 else idx
  }

  /** Which element that is: the one the fraction reaches, or the last. */
  lemma IndexIsFloor(n: nat, num: nat, den: nat)
    requires n > 0 && den > 0
    ensures var i := PercentileIndex(n, num, den);
      if num < den then i * den <= num * n < (i + 1) * den else i == n - 1
  {
    FloorBetween(num * n, den);
    if num < den {
      QuotientBelow(num, den, n, Fraction(num, den, n));
    } else {
      QuotientReaches(num, den, n, Fraction(num, den, n));
    }
  }

  lemma FloorBetween(x: nat, den: nat)
    requires den > 0
    ensures x / den * den <= x < (x / den + 1) * den
  {
  }

  lemma QuotientBelow(num: nat, den: nat, n: nat, q: nat)
    requires num < den && n > 0 && q * den <= num * n
    ensures q < n
  {
    Multiples(num, den, n);
    Multiples(n, q, den);
  }

  lemma QuotientReaches(num: nat, den: nat, n: nat, q: nat)
    requires num >= den && num * n < (q + 1) * den
    ensures q >= n
  {
    Multiples(den, num, n);
    Multiples(q + 1, n, den);
  }

  lemma Multiples(a: nat, b: nat, p: nat)
    ensures a <= b ==> a * p <= b * p
    ensures a < b ==> a * p + p <= b * p
  {
    if a <= b {
      Distributes(a, b - a, p);
    }
  }

  lemma Distributes(a: nat, k: nat, p: nat)
    ensures (a + k) * p == a * p + k * p
    ensures k > 0 ==> k * p >= p
  {
  }

  /** The percentile in milliseconds; 0 for an empty window. */
  function Percentile(history: seq<int>, num: nat, den: nat): real
    requires den > 0
  {
    var w := Window(history);
    if w == [] then 0.0 else Sort(w)[PercentileIndex(|w|, num, den)] as real / 1000.0
  }

  function Maximum(history: seq<int>): real {
    var w := Window(history);
    if w == [] then 0.0 else Sort(w)[|w| - 1] as real / 1000.0
  }

  /** The window is the last 1024 intervals, or all of them. */
  lemma WindowIsLast1024(history: seq<int>)
    ensures var w := Window(history);
      && |w| == (if |history| < 1024 then |history| else 1024)
      && forall i :: 0 <= i < |w| ==> w[i] == history[|history| - |w| + i]
  {
  }

  /** A percentile is an order statistic: of `n` samples, the one at rank floor(p * n), counted from 0
      and capped at the last: that many samples at most are below it, and more than that many are
      not above it. */
  lemma PercentileIsRank(history: seq<int>, num: nat, den: nat, rank: nat)
    requires den > 0 && history != [] && rank < |Window(history)|
    requires var n := |Window(history)|;
      if num < den then rank * den <= num * n < (rank + 1) * den else rank == n - 1
    ensures var w := Window(history);
      exists us <- w :: Percentile(history, num, den) == us as real / 1000.0
                        && CountBelow(w, us) <= rank < CountBelow(w, us + 1)
  {
    var w := Window(history);
    var i := PercentileIndex(|w|, num, den);
    IndexIsFloor(|w|, num, den);
    if num < den {
      FloorUnique(num * |w|, den, rank, i);
    }
    var us := Sort(w)[i];
    RankOfSorted(w, i, us);
    SortKeeps(w, i);
    assert us in w && Percentile(history, num, den) == us as real / 1000.0;
  }

  lemma FloorUnique(x: nat, den: nat, i: nat, j: nat)
    requires i * den <= x < (i + 1) * den && j * den <= x < (j + 1) * den
    ensures i == j
  {
    Multiples(i, j, den);
    Multiples(j, i, den);
  }

  /** Without samples both are 0. */
  lemma NothingRecorded(num: nat, den: nat)
    requires den > 0
    ensures Percentile([], num, den) == 0.0 && Maximum([]) == 0.0
  {
  }

  /** The maximum is the largest sample. */
  lemma MaximumIsLargest(history: seq<int>)
    requires history != []
    ensures var w := Window(history);
      exists us <- w :: Maximum(history) == us as real / 1000.0 && forall x <- w :: x <= us
  {
    var w := Window(history);
    var s := Sort(w);
    var us := s[|w| - 1];
    SortSorts(w);
    assert us in multiset(s);
    forall x | x in w ensures x <= us {
      assert x in multiset(s);
    }
    assert us in w && Maximum(history) == us as real / 1000.0;
  }

  // ---- The ring ------------------------------------------------------------------------------

  /** A ring holding the window of `history`: in order from the start until it fills up, and from
      `next` around to `next` afterwards. */
  predicate RingHolds(ring: seq<int>, next: nat, count: nat, history: seq<int>) {
    && |ring| == CAPACITY && next < CAPACITY && count == Min(|history|, CAPACITY)
    && if count < CAPACITY then next == count && ring[..count] == history else Around(ring, next) == Window(history)
  }

  /** The slots from `next` around to `next`. */
  function Around(ring: seq<int>, next: nat): seq<int>
    requires next < |ring|
  {
    ring[next..] + ring[..next]
  }

  lemma SlotFills(ring: seq<int>, next: nat, us: int)
    requires next < |ring|
    ensures ring[next := us][..next + 1] == ring[..next] + [us]
  {
  }

  /** Overwriting the oldest slot and moving on drops the oldest and adds the newest. */
  lemma SlotTurns(ring: seq<int>, next: nat, us: int)
    requires next < |ring|
    ensures var next' := if next + 1 == |ring| then 0 else next + 1;
      Around(ring[next := us], next') == Around(ring, next)[1..] + [us]
  {
    assert Around(ring, next)[1..] == ring[next + 1..] + ring[..next];
    SlotFills(ring, next, us);
    if next + 1 == |ring| {
      assert ring[next + 1..] == [] && ring[next := us][..next + 1] == ring[next := us];
      assert Around(ring[next := us], 0) == ring[next := us];
    } else {
      assert ring[next := us][next + 1..] == ring[next + 1..];
    }
  }

  lemma WindowSlides(history: seq<int>, us: int)
    requires |history| >= CAPACITY
    ensures Window(history + [us]) == Window(history)[1..] + [us]
  {
  }

  lemma FillingRingRecords(ring: seq<int>, count: nat, history: seq<int>, us: int)
    requires RingHolds(ring, count, count, history) && count < CAPACITY
    ensures RingHolds(ring[count := us], (count + 1) % CAPACITY, count + 1, history + [us])
  {
    SlotFills(ring, count, us);
    if count + 1 == CAPACITY {
      assert Around(ring[count := us], 0) == ring[count := us][..count + 1];
    }
  }

  lemma FullRingRecords(ring: seq<int>, next: nat, history: seq<int>, us: int)
    requires RingHolds(ring, next, CAPACITY, history)
    ensures RingHolds(ring[next := us], (next + 1) % CAPACITY, CAPACITY, history + [us])
  {
    SlotTurns(ring, next, us);
    WindowSlides(history, us);
  }

  lemma RingRecords(ring: seq<int>, next: nat, count: nat, history: seq<int>, us: int)
    requires RingHolds(ring, next, count, history)
    ensures RingHolds(ring[next := us], (next + 1) % CAPACITY, Min(count + 1, CAPACITY), history + [us])
  {
    if count < CAPACITY {
      FillingRingRecords(ring, count, history, us);
    } else {
      FullRingRecords(ring, next, history, us);
    }
  }

  /** Sorting the ring in storage order is sorting the window in time order. */
  lemma RingSorts(ring: seq<int>, next: nat, count: nat, history: seq<int>)
    requires RingHolds(ring, next, count, history)
    ensures Sort(ring[..count]) == Sort(Window(history))
  {
    if count == CAPACITY {
      assert ring == ring[..next] + ring[next..];
      assert ring[..count] == ring;
      SortSorts(ring);
      SortSorts(Window(history));
      SortedUnique(Sort(ring), Sort(Window(history)));
    }
  }

  // ---- The tracker ---------------------------------------------------------------------------

  class CadenceTracker {
    const samples: array<int>
    const sortedCache: array<int>
    var cachedEpoch: nat
    var epoch: nat
    var next: nat
    var count: nat
    ghost var history: seq<int>  // every interval ever recorded

    /** A cache of the current epoch is the sorted window. */
    ghost predicate Valid()
      reads this, samples, sortedCache
    {
      && samples.Length == sortedCache.Length == CAPACITY && samples != sortedCache
      && RingHolds(samples[..], next, count, history)
      && cachedEpoch <= epoch
      && (cachedEpoch == epoch ==> sortedCache[..count] == Sort(Window(history)))
    }

    constructor ()
      ensures Valid() && history == [] && fresh(samples) && fresh(sortedCache)
    {
      samples := new int[CAPACITY](_ => 0);
      sortedCache := new int[CAPACITY](_ => 0);
      cachedEpoch, epoch, next, count := 0, 0, 0, 0;
      history := [];
    }

    method RecordIntervalUs(us: int)
      requires Valid()
      modifies this`next, this`count, this`epoch, this`history, samples
      ensures Valid() && history == old(history) + [us]
    {
      ghost var ring := samples[..][next := us];
      RingRecords(samples[..], next, count, history, us);
      SetSlot(us);
      assert samples[..] == ring;
      next := (next + 1) % CAPACITY;
      if count < CAPACITY {
        count := count + 1;
      }
      epoch := epoch + 1;
      history := history + [us];
    }

    method SetSlot(us: int)
      requires next < samples.Length
      modifies samples
      ensures samples[..] == old(samples[..])[next := us]
    {
      samples[next] := us;
    }

    method RefreshSorted()
      requires Valid()
      modifies this`cachedEpoch, sortedCache
      ensures Valid() && cachedEpoch == epoch
    {
      if cachedEpoch == epoch {
        return;
      }
      CopySorted();
      cachedEpoch := epoch;
    }

    /** `std::copy_n` of the live slots, then `std::sort`. */
    method CopySorted()
      requires samples.Length == sortedCache.Length == CAPACITY && samples != sortedCache
      requires RingHolds(samples[..], next, count, history)
      modifies sortedCache
      ensures sortedCache[..count] == Sort(Window(history))
    {
      assert Sort(samples[..count]) == Sort(Window(history)) by {
        RingSorts(samples[..], next, count, history);
        assert samples[..][..count] == samples[..count];
      }
      SortedCopy(samples, sortedCache, count);
    }

    /** The `i`-th of the sorted samples, in milliseconds. */
    function SortedMs(i: nat): (ms: real)
      requires Valid() && cachedEpoch == epoch && i < count
      reads this, samples, sortedCache
      ensures |Window(history)| == count && ms == Sort(Window(history))[i] as real / 1000.0
    {
      assert sortedCache[..count][i] == sortedCache[i];
      sortedCache[i] as real / 1000.0
    }

    method PercentileMs(num: nat, den: nat) returns (ms: real)
      requires Valid() && den > 0
      modifies this`cachedEpoch, sortedCache
      ensures Valid() && ms == Percentile(history, num, den)
    {
      if count == 0 {
        return 0.0;
      }
      RefreshSorted();
      var idx := Fraction(num, den, count);
      if idx >= count {
        idx := count - 1;
      }
      assert idx == PercentileIndex(count, num, den);
      ms := SortedMs(idx);
    }

    method MaxMs() returns (ms: real)
      requires Valid()
      modifies this`cachedEpoch, sortedCache
      ensures Valid() && ms == Maximum(history)
    {
      if count == 0 {
        return 0.0;
      }
      RefreshSorted();
      ms := SortedMs(count - 1);
    }
  }

  method SortedCopy(from: array<int>, to: array<int>, n: nat)
    requires n <= from.Length && n <= to.Length && from != to
    modifies to
    ensures to[..n] == Sort(from[..n])
  {
    forall i | 0 <= i < n {
      to[i] := from[i];
    }
    assert to[..n] == from[..n];
    SortPrefix(to, n);
  }
}
