/** Messages in the Protocol Buffers wire format (Protocol Buffers Encoding specification,
    sections "Base 128 Varints" and "Message Structure"), for fields numbered 1..15, whose tags
    take one byte. */
module Protobuf {
  import opened BitOps

  datatype Field =
    | Varint(num: nat, payload: seq<byte>)
    | Fixed64(num: nat, payload: seq<byte>)
    | LengthDelimited(num: nat, payload: seq<byte>)
    | Fixed32(num: nat, payload: seq<byte>)

  function WireType(f: Field): nat {
    match f
    case Varint(_, _) => 0
    case Fixed64(_, _) => 1
    case LengthDelimited(_, _) => 2
    case Fixed32(_, _) => 5
  }

  /** A base-128 varint of any width: every byte but the last has its continuation bit set. */
  predicate IsVarint(p: seq<byte>) {
    |p| > 0 && if p[0] < 128 then |p| == 1 else IsVarint(p[1..])
  }

  predicate WellFormed(f: Field) {
    1 <= f.num <= 15 &&
    match f
    case Varint(_, p) => IsVarint(p)
    case Fixed64(_, p) => |p| == 8
    case LengthDelimited(_, p) => |p| < 0x8000_0000
    case Fixed32(_, p) => |p| == 4
  }

  function EncodeVarint(v: nat): (p: seq<byte>)
    ensures IsVarint(p)
  {
    if v < 128 then [v] else [v % 128 + 128] + EncodeVarint(v / 128)
  }

  /** The specification's own examples. */
  lemma VarintExamples()
    ensures EncodeVarint(1) == [0x01] && EncodeVarint(150) == [0x96, 0x01] && EncodeVarint(300) == [0xAC, 0x02]
  {
    assert EncodeVarint(2) == [0x02];
  }

  function WireField(f: Field): seq<byte>
    requires WellFormed(f)
  {
    [f.num * 8 + WireType(f)] + AfterTag(f)
  }

  /** A length-delimited payload is preceded by its length. */
  function AfterTag(f: Field): seq<byte> {
    (if f.LengthDelimited? then EncodeVarint(|f.payload|) else []) + f.payload
  }

  function Wire(fs: seq<Field>): seq<byte>
    requires forall f <- fs :: WellFormed(f)
  {
    if fs == [] then [] else WireField(fs[0]) + Wire(fs[1..])
  }
}
