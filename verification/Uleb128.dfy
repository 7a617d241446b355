/** Unsigned LEB128 numbers (DWARF Version 4, section 7.6), the integer format of the
    binary's header and size fields. */
module Uleb128 {
  import opened Wrappers

  const U32_LIMIT: nat := 0x1_0000_0000
  const U64_LIMIT: nat := 0x1_0000_0000_0000_0000

  // A number read from the front of a byte string, and how many bytes it took.
  datatype Uleb = Uleb(value: nat, used: nat)

  function Encode(v: nat): (b: seq<byte>)
    ensures |b| >= 1
  {
    if v < 128 then [v] else [v % 128 + 128] + Encode(v / 128)
  }

  function Decode(b: seq<byte>): (r: Option<Uleb>)
    ensures r.Some? ==> 1 <= r.value.used <= |b|
  {
    if b == [] then None
    else if b[0] < 128 then Some(Uleb(b[0], 1))
    else
      match Decode(b[1..])
      case None => None
      case Some(rest) => Some(Uleb(b[0] - 128 + 128 * rest.value, rest.used + 1))
  }

  /** The reader of the loader: a number that does not fit 64 bits is an error. */
  function Read(b: seq<byte>): (r: Option<Uleb>)
    ensures r.Some? ==> 1 <= r.value.used <= |b| && r.value.value < U64_LIMIT
  {
    var r := Decode(b);
    if r.Some? && r.value.value < U64_LIMIT then r else None
  }

  /** Round trip: a number written in front of any bytes is read back, and nothing more
      is consumed. */
  lemma {:induction false} DecodeEncode(v: nat, rest: seq<byte>)
    ensures Decode(Encode(v) + rest) == Some(Uleb(v, |Encode(v)|))
  {
    if v >= 128 {
      DecodeEncode(v / 128, rest);
      assert (Encode(v) + rest)[1..] == Encode(v / 128) + rest;
    }
  }

  /** No bytes that decode to a number are fewer than its encoding. */
  lemma {:induction false} EncodeIsShortest(b: seq<byte>)
    requires Decode(b).Some?
    ensures |Encode(Decode(b).value.value)| <= Decode(b).value.used
  {
    if b[0] >= 128 {
      EncodeIsShortest(b[1..]);
    }
  }

  /** Reading depends on the consumed bytes only. */
  lemma {:induction false} DecodeIsLocal(b: seq<byte>, rest: seq<byte>)
    requires Decode(b).Some?
    ensures Decode(b[..Decode(b).value.used] + rest) == Decode(b)
  {
    var c := b[..Decode(b).value.used] + rest;
    if b[0] >= 128 {
      DecodeIsLocal(b[1..], rest);
      assert c[1..] == b[1..][..Decode(b[1..]).value.used] + rest;
    }
  }

  lemma {:induction false} ReadBack(v: nat, rest: seq<byte>)
    requires v < U64_LIMIT
    ensures Read(Encode(v) + rest) == Some(Uleb(v, |Encode(v)|))
  {
    DecodeEncode(v, rest);
  }

  /** A number that was written is read back exactly when it fits in 64 bits. */
  lemma ReadIsExact(v: nat, rest: seq<byte>)
    ensures Read(Encode(v) + rest) == if v < 0x1_0000_0000_0000_0000 then Some(Uleb(v, |Encode(v)|)) else None
  {
    DecodeEncode(v, rest);
  }

  lemma ReadIsLocal(b: seq<byte>, rest: seq<byte>)
    requires Read(b).Some?
    ensures Read(b[..Read(b).value.used] + rest) == Read(b)
  {
    DecodeIsLocal(b, rest);
  }
}
