/** The driver-station view of the daemon and the 32-bit ControlWord it is packed into. */
module ControlDataEncoder {
  import opened BitOps

  datatype RobotMode = Unknown | Auto | Teleop | Test

  datatype ControlDataView = ControlDataView(
    enabled: bool, dsConnected: bool, fmsConnected: bool, eStop: bool, supportsOpmodes: bool,
    mode: RobotMode, alliance: int, matchTime: int)

  const CW_ENABLED: nat := 0x1
  const CW_ROBOT_MODE: nat := 0x6
  const CW_E_STOP: nat := 0x8
  const CW_FMS_CONNECTED: nat := 0x10
  const CW_DS_CONNECTED: nat := 0x20
  const CW_WATCHDOG_ACTIVE: nat := 0x40
  const CW_SUPPORTS_OPMODES: nat := 0x80
  const CW_ALLIANCE: nat := 0xF00

  /** The wire number of a mode. */
  function ModeNumber(m: RobotMode): nat {
    match m
    case Unknown => 0
    case Auto => 1
    case Teleop => 2
    case Test => 3
  }

  /** The mode with this wire number; Unknown for any other number. */
  function ModeFromInt(v: int): RobotMode {
    match v
    case 1 => Auto
    case 2 => Teleop
    case 3 => Test
    case _ => Unknown
  }

  function Bit(b: bool): nat {
    if b then 1 else 0
  }

  /** The layout of the word in positional arithmetic, without a bit operation. */
  function Layout(v: ControlDataView): (w: nat)
    ensures w < 0x1000
  {
    Bit(v.enabled) + 2 * ModeNumber(v.mode) + 8 * Bit(v.eStop) + 16 * Bit(v.fmsConnected)
    + 32 * Bit(v.dsConnected) + 64 * Bit(v.enabled) + 128 * Bit(v.supportsOpmodes)
    + 256 * (v.alliance % 16)
  }

  method PackControlWord(v: ControlDataView) returns (w: nat)
    ensures w == Layout(v)
  {
    w := SetFlag(0, v.enabled, 0, CW_ENABLED);
    w := SetField(w, ModeNumber(v.mode), 1, 2, 2, 4, CW_ROBOT_MODE);
    w := SetFlag(w, v.eStop, 3, CW_E_STOP);
    w := SetFlag(w, v.fmsConnected, 4, CW_FMS_CONNECTED);
    w := SetFlag(w, v.dsConnected, 5, CW_DS_CONNECTED);
    w := SetFlag(w, v.enabled, 6, CW_WATCHDOG_ACTIVE);
    w := SetFlag(w, v.supportsOpmodes, 7, CW_SUPPORTS_OPMODES);
    LowDigitOfWord(v.alliance);
    w := SetField(w, v.alliance % WORD, 8, 4, 256, 16, CW_ALLIANCE);
  }

  lemma LowDigitOfWord(a: int)
    ensures a % WORD % 16 == a % 16
  {
  }

  /** `if (on) w |= bit`, onto a word that has no bit at or above bit `k` yet. */
  method SetFlag(w: nat, on: bool, k: nat, bit: nat) returns (w': nat)
    requires bit == Shl(1, k) && w < bit
    ensures w' == w + bit * Bit(on)
  {
    w' := w;
    if on {
      OrDisjoint(w, 1, k);
      w' := Or(w, bit);
    }
  }

  /** `w |= (x << k) & mask`, where the mask keeps a digit of `n` bits. */
  method SetField(w: nat, x: nat, k: nat, n: nat, weight: nat, base: nat, mask: nat) returns (w': nat)
    requires k < 32 && weight == Shl(1, k) && base == Shl(1, n) && mask == (base - 1) * weight
    requires w < weight && WORD % (weight * base) == 0
    ensures w' == w + weight * (x % base)
  {
    FieldBits(x, k, n, weight, base, mask);
    OrDisjoint(w, x % base, k);
    w' := Or(w, And(Shl32(x, k), mask));
  }

  lemma FieldBits(x: nat, k: nat, n: nat, weight: nat, base: nat, mask: nat)
    requires k < 32 && weight == Shl(1, k) && base == Shl(1, n) && mask == (base - 1) * weight
    requires WORD % (weight * base) == 0
    ensures And(Shl32(x, k), mask) == Shl(x % base, k) == x % base * weight
  {
    Digit(Shl32(x, k), k, n, weight, base, mask);
    ShlIsTimes(x, k);
    ShiftedDigit(x, weight, base);
    ShlIsTimes(x % base, k);
  }

  lemma ShiftedDigit(x: nat, p: nat, n: nat)
    requires p > 0 && n > 0 && WORD % (p * n) == 0
    ensures x * p % WORD / p % n == x % n
  {
    var t := WORD / (p * n);
    assert WORD == p * (n * t);
    var q, r := x / (n * t), x % (n * t);
    assert x * p == WORD * q + r * p;
    assert 0 <= r * p < WORD;
    DivUnique(x * p, WORD, q, r * p);
    DivUnique(r * p, p, r, 0);
    var q', r' := x / n, x % n;
    assert r == n * (q' - t * q) + r';
    DivUnique(r, n, q' - t * q, r');
  }

  /** What a reader recovers with the documented masks and shifts. */
  lemma UnpackControlWord(v: ControlDataView)
    ensures var w := Layout(v);
      && (And(w, 0x1) != 0 <==> v.enabled)
      && Shr(And(w, 0x6), 1) == (match v.mode case Unknown => 0 case Auto => 1 case Teleop => 2 case Test => 3)
      && (And(w, 0x8) != 0 <==> v.eStop)
      && (And(w, 0x10) != 0 <==> v.fmsConnected)
      && (And(w, 0x20) != 0 <==> v.dsConnected)
      && (And(w, 0x40) != 0 <==> v.enabled)
      && (And(w, 0x80) != 0 <==> v.supportsOpmodes)
      && Shr(And(w, 0xF00), 8) == v.alliance % 16
  {
    LayoutDigits(v);
    var w := Layout(v);
    UnpackFlag(w, 0, CW_ENABLED, v.enabled);
    Digit(w, 1, 2, 2, 4, CW_ROBOT_MODE);
    UnpackFlag(w, 3, CW_E_STOP, v.eStop);
    UnpackFlag(w, 4, CW_FMS_CONNECTED, v.fmsConnected);
    UnpackFlag(w, 5, CW_DS_CONNECTED, v.dsConnected);
    UnpackFlag(w, 6, CW_WATCHDOG_ACTIVE, v.enabled);
    UnpackFlag(w, 7, CW_SUPPORTS_OPMODES, v.supportsOpmodes);
    Digit(w, 8, 4, 256, 16, CW_ALLIANCE);
  }

  lemma LayoutDigits(v: ControlDataView)
    ensures var w := Layout(v);
      && w / 1 % 2 == Bit(v.enabled) && w / 2 % 4 == ModeNumber(v.mode) && w / 8 % 2 == Bit(v.eStop)
      && w / 16 % 2 == Bit(v.fmsConnected) && w / 32 % 2 == Bit(v.dsConnected)
      && w / 64 % 2 == Bit(v.enabled) && w / 128 % 2 == Bit(v.supportsOpmodes)
      && w / 256 % 16 == v.alliance % 16
  {
    var e, m, s, f := Bit(v.enabled), ModeNumber(v.mode), Bit(v.eStop), Bit(v.fmsConnected);
    var d, o, a := Bit(v.dsConnected), Bit(v.supportsOpmodes), v.alliance % 16;
    var high, low := d + 2 * e + 4 * o + 8 * a, e + 2 * m + 8 * s + 16 * f;
    LowDigits(Layout(v), e, m, s, f, high);
    HighDigits(Layout(v), low, d, e, o, a);
  }

  lemma LowDigits(w: nat, e: nat, m: nat, s: nat, f: nat, high: nat)
    requires e < 2 && m < 4 && s < 2 && f < 2 && w == e + 2 * m + 8 * s + 16 * f + 32 * high
    ensures w / 1 % 2 == e && w / 2 % 4 == m && w / 8 % 2 == s && w / 16 % 2 == f
  {
    var above3 := s + 2 * f + 4 * high;
    TakeDigit(w, 0, 1, e, 2, m + 4 * above3);
    TakeDigit(w, e, 2, m, 4, above3);
    TakeDigit(w, e + 2 * m, 8, s, 2, f + 2 * high);
    TakeDigit(w, e + 2 * m + 8 * s, 16, f, 2, high);
  }

  lemma HighDigits(w: nat, low: nat, d: nat, e: nat, o: nat, a: nat)
    requires low < 32 && d < 2 && e < 2 && o < 2 && a < 16
    requires w == low + 32 * d + 64 * e + 128 * o + 256 * a
    ensures w / 32 % 2 == d && w / 64 % 2 == e && w / 128 % 2 == o && w / 256 % 16 == a
  {
    TakeDigit(w, low, 32, d, 2, e + 2 * o + 4 * a);
    TakeDigit(w, low + 32 * d, 64, e, 2, o + 2 * a);
    TakeDigit(w, low + 32 * d + 64 * e, 128, o, 2, a);
    TakeDigit(w, low + 32 * d + 64 * e + 128 * o, 256, a, 16, 0);
  }

  lemma TakeDigit(w: nat, low: nat, p: nat, d: nat, n: nat, rest: nat)
    requires low < p && d < n && w == low + p * (d + n * rest)
    ensures w / p % n == d
  {
    DivUnique(w, p, d + n * rest, low);
    DivUnique(d + n * rest, n, rest, d);
  }

  lemma UnpackFlag(w: nat, k: nat, bit: nat, on: bool)
    requires bit == Shl(1, k) && w / bit % 2 == Bit(on)
    ensures And(w, bit) != 0 <==> on
  {
    Digit(w, k, 1, bit, 2, bit);
    assert bit * 1 == bit;
  }
}
