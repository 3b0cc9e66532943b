/** Time units and the C++ arithmetic the daemon applies to them. A time point is an integer
    number of nanoseconds since the steady clock's epoch. */
module Units {
  function MsToNs(ms: int): int {
    ms * 1_000_000
  }

  /** `std::chrono::duration_cast` truncates toward zero. */
  function TruncToMs(ns: int): int {
    if ns >= 0 then ns / 1_000_000 else -(-ns / 1_000_000)
  }

  function TruncToUs(ns: int): int {
    if ns >= 0 then ns / 1_000 else -(-ns / 1_000)
  }

  /** `std::chrono::ceil<std::chrono::seconds>`, from nanoseconds and from milliseconds. */
  function CeilToSeconds(ns: int): int {
    -(-ns / 1_000_000_000)
  }

  function CeilMsToSeconds(ms: int): int {
    -(-ms / 1_000)
  }

  /** `static_cast<int>` and `static_cast<int32_t>`: the low 32 bits, read as two's complement. */
  function Int32(x: int): int {
    var low := x % 0x1_0000_0000;
    if low < 0x8000_0000 then low else low - 0x1_0000_0000
  }

  /** Truncation toward zero: the remainder is less than a unit and on the number's own side. */
  lemma Truncates(ns: int)
    ensures var ms := TruncToMs(ns);
      if ns >= 0 then ms * 1_000_000 <= ns < (ms + 1) * 1_000_000 else (ms - 1) * 1_000_000 < ns <= ms * 1_000_000
    ensures var us := TruncToUs(ns);
      if ns >= 0 then us * 1_000 <= ns < (us + 1) * 1_000 else (us - 1) * 1_000 < ns <= us * 1_000
  {
  }

  /** The least number of seconds that covers the time. */
  lemma CeilCovers(t: int)
    ensures (CeilToSeconds(t) - 1) * 1_000_000_000 < t <= CeilToSeconds(t) * 1_000_000_000
    ensures (CeilMsToSeconds(t) - 1) * 1_000 < t <= CeilMsToSeconds(t) * 1_000
  {
  }

  /** Narrowing yields the one 32-bit integer that is congruent to the number. */
  lemma Int32Congruent(x: int, y: int)
    ensures Int32(x) == y <==> -0x8000_0000 <= y < 0x8000_0000 && (x - y) % 0x1_0000_0000 == 0
  {
  }

  function Min(a: int, b: int): int {
    if a < b then a else b
  }

  function Max(a: int, b: int): int {
    if a < b then b else a
  }
}
