/** The tester's hand-written scanner, which looks for ControlWord (field 5, a varint) in a
    ControlData message. A Java int is held as its 32-bit pattern. */
module DaemonTester {
  import opened BitOps
  import opened Protobuf

  /** `Word` is the returned int. `Stray` stands for a skip that is negative as an int, or carries
      the index past the largest int; what the scanner does from there (an exception, or going back
      over bytes already read) is not modelled. */
  datatype Decoded = Word(word: nat) | Stray

  const MAX_ARRAY := 0x7FFF_FFFF

  // ---- What the scanner computes, over the bytes not yet read --------------------------------

  function ReadVarint(b: seq<byte>, acc: nat, shift: nat): (r: (nat, seq<byte>))
    ensures |r.1| <= |b|
  {
    if b == [] then (acc, [])
    else
      var acc' := Or(acc, Shl32(b[0] % 128, shift));
      if b[0] < 128 then (acc', b[1..]) else ReadVarint(b[1..], acc', shift + 7)
  }

  function SkipVarint(b: seq<byte>): (r: seq<byte>)
    ensures |r| <= |b|
  {
    if b == [] then [] else if b[0] < 128 then b[1..] else SkipVarint(b[1..])
  }

  /** What is left after moving the index forward by `n`. */
  function Skip(b: seq<byte>, n: nat): (r: seq<byte>)
    ensures |r| <= |b|
  {
    if n <= |b| then b[n..] else []
  }

  /** What one round of the scanner leads to: an answer, or the bytes left to scan. */
  datatype Outcome = Done(d: Decoded) | More(rest: seq<byte>)

  /** Moving the index forward by `n`; `size` is the length of the whole array. */
  function Advance(rest: seq<byte>, n: nat, size: nat): (r: Outcome)
    requires |rest| <= size
    ensures r.More? ==> |r.rest| <= |rest|
  {
    if size - |rest| + n > MAX_ARRAY then Done(Stray) else More(Skip(rest, n))
  }

  /** Moving past the payload of a field with this wire type. */
  function SkipPayload(wireType: nat, rest: seq<byte>, size: nat): (r: Outcome)
    requires |rest| <= size
    ensures r.More? ==> |r.rest| <= |rest|
  {
    if wireType == 0 then More(SkipVarint(rest))
    else if wireType == 2 then
      var r := ReadVarint(rest, 0, 0);
      Advance(r.1, r.0, size)
    else if wireType == 1 then Advance(rest, 8, size)
    else if wireType == 5 then Advance(rest, 4, size)
    else Done(Word(0))
  }

  function ScanField(num: nat, wireType: nat, rest: seq<byte>, size: nat): (r: Outcome)
    requires |rest| <= size
    ensures r.More? ==> |r.rest| <= |rest|
  {
    if num == 5 && wireType == 0 then Done(Word(ReadVarint(rest, 0, 0).0))
    else SkipPayload(wireType, rest, size)
  }

  function Scan(b: seq<byte>, size: nat): Decoded
    requires |b| <= size
    decreases |b|
  {
    if b == [] then Word(0)
    else
      var r := ScanField(b[0] / 8, b[0] % 8, b[1..], size);
      if r.Done? then r.d else Scan(r.rest, size)
  }

  // ---- The scanner itself --------------------------------------------------------------------

  /** The masks and shifts the scanner applies to a byte. */
  lemma ByteBits(b: byte)
    ensures And(b, 0x7f) == b % 128
    ensures And(b, 0x80) == 0 <==> b < 128
    ensures And(b, 7) == b % 8 && Shr(b, 3) == b / 8
  {
    AndLow(b, 7);
    TopBit(b);
    AndLow(b, 3);
    ShrIsDiv(b, 3);
  }

  lemma TopBit(b: byte)
    ensures And(b, 0x80) == 0 <==> b < 128
  {
    Digit(b, 7, 1, 128, 2, 128);
    var top: nat := if b < 128 then 0 else 1;
    DivUnique(b, 128, top, b - 128 * top);
    DivUnique(top, 2, 0, top);
  }

  /** The loop that accumulates a varint from index `i` on. */
  method ReadVarintAt(bytes: seq<byte>, i: nat) returns (result: nat, next: nat)
    requires i <= |bytes|
    ensures i <= next <= |bytes|
    ensures (result, bytes[next..]) == ReadVarint(bytes[i..], 0, 0)
  {
    result, next := 0, i;
    var shift := 0;
    while next < |bytes|
      invariant i <= next <= |bytes|
      invariant ReadVarint(bytes[i..], 0, 0) == ReadVarint(bytes[next..], result, shift)
    {
      var b := bytes[next];
      assert bytes[next..][1..] == bytes[next + 1..];
      ByteBits(b);
      next := next + 1;
      result := Or(result, Shl32(And(b, 0x7f), shift));
      if And(b, 0x80) == 0 { return; }
      shift := shift + 7;
    }
  }

  /** The loop that moves past a varint. */
  method SkipVarintAt(bytes: seq<byte>, i: nat) returns (next: nat)
    requires i <= |bytes|
    ensures i <= next <= |bytes| && bytes[next..] == SkipVarint(bytes[i..])
  {
    next := i;
    var more := true;
    while next < |bytes| && more
      invariant i <= next <= |bytes|
      invariant SkipVarint(bytes[i..]) == if more then SkipVarint(bytes[next..]) else bytes[next..]
      decreases |bytes| - next
    {
      ByteBits(bytes[next]);
      assert bytes[next..][1..] == bytes[next + 1..];
      more := And(bytes[next], 0x80) != 0;
      next := next + 1;
    }
  }

  /** One round of the scan, from index `i`. */
  lemma Round(bytes: seq<byte>, i: nat)
    requires i < |bytes|
    ensures Scan(Skip(bytes, i), |bytes|)
         == var r := ScanField(bytes[i] / 8, bytes[i] % 8, bytes[i + 1..], |bytes|);
            if r.Done? then r.d else Scan(r.rest, |bytes|)
  {
    assert bytes[i..][1..] == bytes[i + 1..];
  }

  lemma SkipFrom(bytes: seq<byte>, i: nat, n: nat)
    requires i <= |bytes|
    ensures Skip(bytes[i..], n) == Skip(bytes, i + n)
  {
  }

  /** Moves the index past a payload, or answers. */
  method SkipPayloadAt(bytes: seq<byte>, wireType: nat, i: nat) returns (answer: bool, d: Decoded, next: nat)
    requires i <= |bytes| <= 0x7FFF_FFFF
    ensures var r := SkipPayload(wireType, bytes[i..], |bytes|);
      r == if answer then Done(d) else More(Skip(bytes, next))
  {
    next := i;
    var n := 0;
    if wireType == 0 {
      next := SkipVarintAt(bytes, i);
      return false, Word(0), next;
    } else if wireType == 2 {
      n, next := ReadVarintAt(bytes, i);
    } else if wireType == 1 {
      n := 8;
    } else if wireType == 5 {
      n := 4;
    } else {
      return true, Word(0), next;
    }
    if next + n > MAX_ARRAY { return true, Stray, next; }
    SkipFrom(bytes, next, n);
    return false, Word(0), next + n;
  }

  method DecodeControlWord(bytes: seq<byte>) returns (d: Decoded)
    requires |bytes| <= 0x7FFF_FFFF
    ensures d == Scan(bytes, |bytes|)
  {
    var i := 0;
    while i < |bytes|
      invariant 0 <= i
      invariant Scan(bytes, |bytes|) == Scan(Skip(bytes, i), |bytes|)
      decreases |Skip(bytes, i)|
    {
      var tag := bytes[i];
      var fieldNum, wireType := Shr(tag, 3), And(tag, 7);
      ByteBits(tag);
      Round(bytes, i);
      i := i + 1;
      if fieldNum == 5 && wireType == 0 {
        var result, _ := ReadVarintAt(bytes, i);
        return Word(result);
      }
      var answer, answered, next := SkipPayloadAt(bytes, wireType, i);
      if answer { return answered; }
      i := next;
    }
    return Word(0);
  }

  // ---- The control word survives the wire ----------------------------------------------------

  /** One byte of a varint, when its digit lands above the bits accumulated so far. */
  lemma ReadStep(b: seq<byte>, rest: seq<byte>, acc: nat, s: nat)
    requires |b| > 0 && b[1..] == rest
    requires s < 32 && acc < Shl(1, s) && Shl(b[0] % 128, s) < WORD
    ensures ReadVarint(b, acc, s)
         == var acc' := acc + Shl(b[0] % 128, s);
            if b[0] < 128 then (acc', rest) else ReadVarint(rest, acc', s + 7)
  {
    Shl32Fits(b[0] % 128, s);
    OrDisjoint(acc, b[0] % 128, s);
  }

  lemma Shl32Fits(x: nat, s: nat)
    requires s < 32 && Shl(x, s) < WORD
    ensures Shl32(x, s) == Shl(x, s)
  {
    DivUnique(s, 32, 0, s);
    DivUnique(Shl(x, s), WORD, 0, Shl(x, s));
  }

  lemma {:induction false} ReadEncoded(v: nat, rest: seq<byte>, acc: nat, s: nat)
    requires s < 32 && acc < Shl(1, s) && Shl(v, s) < WORD
    ensures ReadVarint(EncodeVarint(v) + rest, acc, s) == (acc + Shl(v, s), rest)
    decreases v
  {
    var b := EncodeVarint(v) + rest;
    if v < 128 {
      ReadStep(b, rest, acc, s);
      assert ReadVarint(b, acc, s) == (acc + Shl(v, s), rest);
    } else {
      EncodeStep(v, rest);
      ShiftSplit(v, acc, s);
      var more, acc' := EncodeVarint(v / 128) + rest, acc + Shl(v % 128, s);
      ReadStep(b, more, acc, s);
      assert ReadVarint(b, acc, s) == ReadVarint(more, acc', s + 7);
      ReadEncoded(v / 128, rest, acc', s + 7);
    }
  }

  lemma EncodeStep(v: nat, rest: seq<byte>)
    requires v >= 128
    ensures var b := EncodeVarint(v) + rest;
      |b| > 0 && b[0] >= 128 && b[0] % 128 == v % 128 && b[1..] == EncodeVarint(v / 128) + rest
  {
    DivUnique(v % 128 + 128, 128, 1, v % 128);
  }

  /** Shifting the low seven bits and the rest separately. */
  lemma ShiftSplit(v: nat, acc: nat, s: nat)
    requires 128 <= v && acc < Shl(1, s) && Shl(v, s) < WORD
    ensures Shl(v, s) == Shl(v % 128, s) + Shl(v / 128, s + 7)
    ensures acc + Shl(v % 128, s) < Shl(1, s + 7)
    ensures s + 7 < 32
  {
    Shl128(s);
    ShlIsTimes(v, s);
    ShlIsTimes(v % 128, s);
    ShlIsTimes(v / 128, s + 7);
    SplitProduct(v / 128, v % 128, Shl(1, s));
    assert v == 128 * (v / 128) + v % 128;
    ShiftBelow32(s);
  }

  lemma SplitProduct(q: nat, r: nat, p: nat)
    requires q >= 1 && r < 128
    ensures (128 * q + r) * p == r * p + q * (128 * p)
    ensures r * p + p <= 128 * p <= q * (128 * p)
  {
  }

  lemma Shl128(s: nat)
    ensures Shl(1, s + 7) == 128 * Shl(1, s)
  {
    assert Shl(1, s + 7) == 2 * 2 * Shl(1, s + 5);
    assert Shl(1, s + 5) == 2 * 2 * Shl(1, s + 3);
    assert Shl(1, s + 3) == 2 * 2 * Shl(1, s + 1);
  }

  lemma ShiftBelow32(s: nat)
    requires Shl(1, s + 7) < WORD
    ensures s + 7 < 32
  {
    Shl128(4);
    Shl128(11);
    Shl128(18);
    Shl128(25);
    if s + 7 >= 32 {
      ShlGrows(32, s + 7);
    }
  }

  lemma {:induction false} ShlGrows(a: nat, b: nat)
    requires a <= b
    ensures Shl(1, a) <= Shl(1, b)
  {
    if a < b {
      ShlGrows(a, b - 1);
    }
  }

  lemma {:induction false} SkipsVarint(p: seq<byte>, tail: seq<byte>)
    requires IsVarint(p)
    ensures SkipVarint(p + tail) == tail
  {
    assert (p + tail)[1..] == p[1..] + tail;
    if p[0] >= 128 {
      SkipsVarint(p[1..], tail);
    } else {
      assert p[1..] + tail == tail;
    }
  }

  function ControlWordField(w: nat): (f: Field)
    ensures WellFormed(f)
  {
    Varint(5, EncodeVarint(w))
  }

  predicate IsControlWordField(f: Field) {
    f.Varint? && f.num == 5
  }

  /** A well-formed field other than ControlWord is skipped exactly. */
  lemma ScanSkips(f: Field, tail: seq<byte>, size: nat)
    requires WellFormed(f) && !IsControlWordField(f)
    requires |WireField(f) + tail| <= size <= 0x7FFF_FFFF
    ensures Scan(WireField(f) + tail, size) == Scan(tail, size)
  {
    ScanStep(f, tail, size);
    FieldSkipped(f, tail, size);
  }

  lemma TagParts(num: nat, wireType: nat)
    requires wireType < 8
    ensures (num * 8 + wireType) / 8 == num && (num * 8 + wireType) % 8 == wireType
  {
    DivUnique(num * 8 + wireType, 8, num, wireType);
  }

  lemma WireFieldParts(f: Field, tail: seq<byte>)
    requires WellFormed(f)
    ensures WireField(f) + tail == [f.num * 8 + WireType(f)] + (AfterTag(f) + tail)
  {
  }

  lemma PayloadParts(f: Field, tail: seq<byte>)
    ensures AfterTag(f) + tail
         == if f.LengthDelimited? then EncodeVarint(|f.payload|) + (f.payload + tail) else f.payload + tail
  {
  }

  /** The round for a well-formed field. */
  lemma ScanStep(f: Field, tail: seq<byte>, size: nat)
    requires WellFormed(f) && |WireField(f) + tail| <= size
    ensures |AfterTag(f) + tail| < size
    ensures Scan(WireField(f) + tail, size)
         == var r := ScanField(f.num, WireType(f), AfterTag(f) + tail, size);
            if r.Done? then r.d else Scan(r.rest, size)
  {
    WireFieldParts(f, tail);
    TagParts(f.num, WireType(f));
    ScanTag(WireField(f) + tail, f.num, WireType(f), AfterTag(f) + tail, size);
  }

  lemma ScanTag(b: seq<byte>, num: nat, wireType: nat, rest: seq<byte>, size: nat)
    requires |rest| < size && |b| > 0 && b[0] / 8 == num && b[0] % 8 == wireType && b[1..] == rest
    ensures Scan(b, size)
         == var r := ScanField(num, wireType, rest, size);
            if r.Done? then r.d else Scan(r.rest, size)
  {
  }

  lemma FieldSkipped(f: Field, tail: seq<byte>, size: nat)
    requires WellFormed(f) && !IsControlWordField(f) && |AfterTag(f) + tail| <= size <= 0x7FFF_FFFF
    ensures ScanField(f.num, WireType(f), AfterTag(f) + tail, size) == More(tail)
  {
    PayloadParts(f, tail);
    if f.LengthDelimited? {
      LengthDelimitedSkipped(f.payload, tail, size);
    } else if f.Varint? {
      SkipsVarint(f.payload, tail);
    } else {
      FixedSkipped(f.payload, tail, size);
    }
  }

  lemma FixedSkipped(payload: seq<byte>, tail: seq<byte>, size: nat)
    requires |payload + tail| <= size <= 0x7FFF_FFFF
    ensures Advance(payload + tail, |payload|, size) == More(tail)
  {
    assert (payload + tail)[|payload|..] == tail;
  }

  lemma LengthDelimitedSkipped(payload: seq<byte>, tail: seq<byte>, size: nat)
    requires |payload| < 0x8000_0000 && |EncodeVarint(|payload|) + (payload + tail)| <= size <= 0x7FFF_FFFF
    ensures SkipPayload(2, EncodeVarint(|payload|) + (payload + tail), size) == More(tail)
  {
    ReadEncoded(|payload|, payload + tail, 0, 0);
    FixedSkipped(payload, tail, size);
  }

  lemma {:induction false} ScanSkipsAll(fs: seq<Field>, tail: seq<byte>, size: nat)
    requires forall f <- fs :: WellFormed(f) && !IsControlWordField(f)
    requires |Wire(fs) + tail| <= size <= 0x7FFF_FFFF
    ensures Scan(Wire(fs) + tail, size) == Scan(tail, size)
  {
    if fs == [] {
      assert Wire(fs) + tail == tail;
    } else {
      assert Wire(fs) + tail == WireField(fs[0]) + (Wire(fs[1..]) + tail);
      ScanSkips(fs[0], Wire(fs[1..]) + tail, size);
      ScanSkipsAll(fs[1..], tail, size);
    }
  }

  /** Whatever well-formed fields come first and whatever bytes follow, the scanner returns the
      32-bit number carried by the first field-5 varint. */
  lemma ControlWordFound(fs: seq<Field>, w: nat, tail: seq<byte>)
    requires forall f <- fs :: WellFormed(f) && !IsControlWordField(f)
    requires w < WORD
    requires |Wire(fs)| + |WireField(ControlWordField(w))| + |tail| <= 0x7FFF_FFFF
    ensures var m := Wire(fs) + (WireField(ControlWordField(w)) + tail); Scan(m, |m|) == Word(w)
  {
    var last := WireField(ControlWordField(w)) + tail;
    ScanSkipsAll(fs, last, |Wire(fs) + last|);
    ScanControlWord(w, tail, |Wire(fs) + last|);
  }

  lemma ScanControlWord(w: nat, tail: seq<byte>, size: nat)
    requires w < WORD && |WireField(ControlWordField(w)) + tail| <= size
    ensures Scan(WireField(ControlWordField(w)) + tail, size) == Word(w)
  {
    var f := ControlWordField(w);
    ScanStep(f, tail, size);
    PayloadParts(f, tail);
    ReadEncoded(w, tail, 0, 0);
  }

  /** Without such a field it returns 0, which is also what an omitted proto3 field means. */
  lemma ControlWordAbsent(fs: seq<Field>)
    requires forall f <- fs :: WellFormed(f) && !IsControlWordField(f)
    requires |Wire(fs)| <= 0x7FFF_FFFF
    ensures Scan(Wire(fs), |Wire(fs)|) == Word(0)
  {
    assert Wire(fs) + [] == Wire(fs);
    ScanSkipsAll(fs, [], |Wire(fs)|);
  }

  // ---- In bytes ------------------------------------------------------------------------------

  // The low three bits of a tag, whatever its other five, say how its field is skipped: 0 a varint,
  // 1 eight bytes, 2 a length and that many bytes, 5 four bytes.

  lemma VarintPassed(n: nat, p: seq<byte>, tail: seq<byte>, size: nat)
    requires n < 32 && n != 5 && IsVarint(p) && |p| + |tail| < size
    ensures Scan([8 * n] + (p + tail), size) == Scan(tail, size)
  {
    TagParts(n, 0);
    ScanTag([8 * n] + (p + tail), n, 0, p + tail, size);
    SkipsVarint(p, tail);
  }

  lemma FixedPassed(n: nat, p: seq<byte>, tail: seq<byte>, size: nat)
    requires n < 32 && |p| + |tail| < size <= 0x7FFF_FFFF
    ensures |p| == 8 ==> Scan([8 * n + 1] + (p + tail), size) == Scan(tail, size)
    ensures |p| == 4 ==> Scan([8 * n + 5] + (p + tail), size) == Scan(tail, size)
  {
    TagParts(n, 1);
    TagParts(n, 5);
    ScanTag([8 * n + 1] + (p + tail), n, 1, p + tail, size);
    ScanTag([8 * n + 5] + (p + tail), n, 5, p + tail, size);
    FixedSkipped(p, tail, size);
  }

  lemma LengthPassed(n: nat, p: seq<byte>, tail: seq<byte>, size: nat)
    requires n < 32 && |EncodeVarint(|p|) + (p + tail)| < size <= 0x7FFF_FFFF
    ensures Scan([8 * n + 2] + (EncodeVarint(|p|) + (p + tail)), size) == Scan(tail, size)
  {
    TagParts(n, 2);
    ScanTag([8 * n + 2] + (EncodeVarint(|p|) + (p + tail)), n, 2, EncodeVarint(|p|) + (p + tail), size);
    LengthDelimitedSkipped(p, tail, size);
  }

  /** The scan ends with 0 at any of the other wire types. */
  lemma UnsupportedEnds(tag: byte, rest: seq<byte>, size: nat)
    requires |rest| < size && tag % 8 in {3, 4, 6, 7}
    ensures Scan([tag] + rest, size) == Word(0)
  {
    ScanTag([tag] + rest, tag / 8, tag % 8, rest, size);
  }

  /** A byte 0x28 introduces the word. */
  lemma WordAfterTag(w: nat, tail: seq<byte>, size: nat)
    requires w < WORD && |EncodeVarint(w)| + |tail| < size
    ensures Scan([0x28] + (EncodeVarint(w) + tail), size) == Word(w)
  {
    ScanTag([0x28] + (EncodeVarint(w) + tail), 5, 0, EncodeVarint(w) + tail, size);
    ReadEncoded(w, tail, 0, 0);
  }

  /** A length that carries the index past the largest int. */
  lemma LengthStrays(n: nat, len: nat, rest: seq<byte>, size: nat)
    requires n < 32 && len < WORD && |EncodeVarint(len)| + |rest| < size
    ensures size - |rest| + len > 0x7FFF_FFFF ==> Scan([8 * n + 2] + (EncodeVarint(len) + rest), size) == Stray
  {
    TagParts(n, 2);
    ScanTag([8 * n + 2] + (EncodeVarint(len) + rest), n, 2, EncodeVarint(len) + rest, size);
    ReadEncoded(len, rest, 0, 0);
  }

  /** A field cut off by the end of the array is passed over like a whole one. */
  lemma CutOffEnds(n: nat, p: seq<byte>, size: nat)
    requires n < 32 && |p| < size && size + 8 <= 0x7FFF_FFFF
    ensures |p| < 8 ==> Scan([8 * n + 1] + p, size) == Word(0)
    ensures |p| < 4 ==> Scan([8 * n + 5] + p, size) == Word(0)
  {
    TagParts(n, 1);
    TagParts(n, 5);
    ScanTag([8 * n + 1] + p, n, 1, p, size);
    ScanTag([8 * n + 5] + p, n, 5, p, size);
  }

  /** The number given by the first `k` base-128 digits of `v`, that is, `v` modulo 128^k. */
  function LowDigits(v: nat, k: nat): nat {
    if k == 0 then 0 else v % 128 + 128 * LowDigits(v / 128, k - 1)
  }

  /** A word cut off after `k` bytes is read modulo 128^k. */
  lemma WordCutOff(w: nat, k: nat, size: nat)
    requires w < WORD && k <= |EncodeVarint(w)| && k < size
    ensures Scan([0x28] + EncodeVarint(w)[..k], size) == Word(LowDigits(w, k))
  {
    ScanTag([0x28] + EncodeVarint(w)[..k], 5, 0, EncodeVarint(w)[..k], size);
    ReadCutOff(w, EncodeVarint(w)[..k], 0, 0);
  }

  lemma {:induction false} ReadCutOff(v: nat, b: seq<byte>, acc: nat, s: nat)
    requires s < 32 && acc < Shl(1, s) && Shl(v, s) < WORD && b <= EncodeVarint(v)
    ensures ReadVarint(b, acc, s).0 == acc + Shl(LowDigits(v, |b|), s)
    decreases v
  {
    if b == [] {
      ShlIsTimes(0, s);
    } else if v < 128 {
      CutStep(v, b);
      ReadStep(b, [], acc, s);
      assert ReadVarint(b, acc, s) == (acc + Shl(v, s), []);
    } else {
      CutStep(v, b);
      ShiftSplit(v, acc, s);
      ReadStep(b, b[1..], acc, s);
      var acc' := acc + Shl(v % 128, s);
      assert ReadVarint(b, acc, s) == ReadVarint(b[1..], acc', s + 7);
      ReadCutOff(v / 128, b[1..], acc', s + 7);
      ShlDigits(v, |b|, acc, s);
    }
  }

  lemma CutStep(v: nat, b: seq<byte>)
    requires |b| > 0 && b <= EncodeVarint(v)
    ensures b[0] % 128 == v % 128 && (b[0] < 128 <==> v < 128)
    ensures if v < 128 then |b| == 1 else b[1..] <= EncodeVarint(v / 128)
    ensures v < 128 ==> LowDigits(v, |b|) == v
  {
    DivUnique(v % 128 + 128, 128, 1, v % 128);
  }

  lemma ShlDigits(v: nat, k: nat, acc: nat, s: nat)
    requires k > 0
    ensures acc + Shl(LowDigits(v, k), s) == acc + Shl(v % 128, s) + Shl(LowDigits(v / 128, k - 1), s + 7)
  {
    var high := LowDigits(v / 128, k - 1);
    Shl128(s);
    ShlIsTimes(v % 128 + 128 * high, s);
    ShlIsTimes(v % 128, s);
    ShlIsTimes(high, s + 7);
    SumTimes(v % 128, high, Shl(1, s));
  }

  lemma SumTimes(low: nat, high: nat, p: nat)
    ensures (low + 128 * high) * p == low * p + high * (128 * p)
  {
  }

  lemma PadByte(b: seq<byte>, s: nat)
    requires |b| > 0 && b[0] == 0x80
    ensures ReadVarint(b, 0, s) == ReadVarint(b[1..], 0, s + 7)
  {
    ShlIsTimes(0, s % 32);
  }

  lemma {:induction false} PaddingRead(b: seq<byte>, n: nat, s: nat)
    requires n <= |b| && forall i :: 0 <= i < n ==> b[i] == 0x80
    ensures ReadVarint(b, 0, s) == ReadVarint(b[n..], 0, s + 7 * n)
  {
    if n == 0 {
      assert b[0..] == b;
    } else {
      PadByte(b, s);
      PaddingRead(b[1..], n - 1, s + 7);
      assert b[1..][n - 1..] == b[n..];
    }
  }

  lemma LastByteRead(b: seq<byte>)
    requires |b| == 1 && b[0] == 1
    ensures ReadVarint(b, 0, 35).0 == 8
  {
    assert Shl(1, 3) == 8;
    assert Shl32(1, 35) == 8;
  }

  /** Java takes shift distances modulo 32: the sixth byte of an overlong varint lands on bit 3. */
  lemma OverlongExample()
    ensures Scan([0x28, 0x80, 0x80, 0x80, 0x80, 0x80, 0x01], 7) == Word(8)
  {
    var b: seq<byte> := [0x80, 0x80, 0x80, 0x80, 0x80, 0x01];
    ScanTag([0x28, 0x80, 0x80, 0x80, 0x80, 0x80, 0x01], 5, 0, b, 7);
    PaddingRead(b, 5, 0);
    LastByteRead(b[5..]);
  }
}
