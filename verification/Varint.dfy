/**
 The base-128 varint reader shared by the protobuf walkers, next to the
 encoding of the Protocol Buffers specification ("Base 128 Varints").
 */
module Varint {
  import opened Prelude

  const MAXIMUM_VARINT_BYTES := 10

  /** The specification's encoding: seven bits a byte, least significant first. */
  function EncodeVarint(value: nat): (encoded: seq<byte>)
    ensures |encoded| >= 1
  {
    if value < 128 then [value] else [value % 128 + 128] + EncodeVarint(value / 128)
  }

  /** The values that fit a u64 once `index` seven-bit groups are spoken for. */
  function Capacity(index: nat): nat
    requires index < MAXIMUM_VARINT_BYTES
    decreases MAXIMUM_VARINT_BYTES - index
  {
    if index == 9 then 2 else 128 * Capacity(index + 1)
  }

  /** What the bytes denote when `index` groups came before them; `None` is malformed. */
  function VarintAt(encoded: seq<byte>, index: nat): (r: Option<(nat, nat)>)
    ensures r.Some? ==> 1 <= r.value.1 <= |encoded| && r.value.1 + index <= MAXIMUM_VARINT_BYTES
  {
    if encoded == [] || index >= MAXIMUM_VARINT_BYTES then None
    else
      var payload := encoded[0] % 128;
      if index == 9 && payload > 1 then None
      else if encoded[0] < 128 then Some((payload, 1))
      else
        match VarintAt(encoded[1..], index + 1)
        case None => None
        case Some((high, count)) => Some((payload + 128 * high, count + 1))
  }

  /** `decode_varint`: the value and the number of bytes it took. */
  function ReadVarint(encoded: seq<byte>): (r: Option<(u64, nat)>)
    ensures r.Some? ==> 1 <= r.value.1 <= |encoded| && r.value.1 <= MAXIMUM_VARINT_BYTES
  {
    match VarintAt(encoded, 0)
    case None => None
    case Some((value, count)) => FitsU64(encoded); Some((value, count))
  }

  lemma {:induction false} WithinCapacity(encoded: seq<byte>, index: nat)
    requires index < MAXIMUM_VARINT_BYTES
    ensures VarintAt(encoded, index).Some? ==> VarintAt(encoded, index).value.0 < Capacity(index)
    decreases MAXIMUM_VARINT_BYTES - index
  {
    if index < 9 {
      CapacityAtLeast(index + 1);
      if encoded != [] {
        WithinCapacity(encoded[1..], index + 1);
      }
    }
  }

  lemma {:induction false} CapacityAtLeast(index: nat)
    requires index < MAXIMUM_VARINT_BYTES
    ensures Capacity(index) >= 2
    decreases MAXIMUM_VARINT_BYTES - index
  {
    if index < 9 { CapacityAtLeast(index + 1); }
  }

  lemma FullCapacity()
    ensures Capacity(0) == U64_MAX + 1
  {
    assert Capacity(8) == 256 && Capacity(7) == 0x8000;
    assert Capacity(6) == 0x40_0000 && Capacity(5) == 0x2000_0000;
    assert Capacity(4) == 0x10_0000_0000 && Capacity(3) == 0x800_0000_0000;
    assert Capacity(2) == 0x4_0000_0000_0000 && Capacity(1) == 0x200_0000_0000_0000;
  }

  /** The tenth-byte guard is exactly what keeps every decoded value a u64. */
  lemma FitsU64(encoded: seq<byte>)
    ensures VarintAt(encoded, 0).Some? ==> VarintAt(encoded, 0).value.0 <= U64_MAX
  {
    WithinCapacity(encoded, 0);
    FullCapacity();
  }

  lemma {:induction false} VarintAtInvertsEncode(value: nat, index: nat, tail: seq<byte>)
    requires index < MAXIMUM_VARINT_BYTES && value < Capacity(index)
    ensures VarintAt(EncodeVarint(value) + tail, index) == Some((value, |EncodeVarint(value)|))
    decreases MAXIMUM_VARINT_BYTES - index
  {
    var encoded := EncodeVarint(value) + tail;
    if value >= 128 {
      assert index < 9;
      VarintAtInvertsEncode(value / 128, index + 1, tail);
      assert encoded[1..] == EncodeVarint(value / 128) + tail;
    }
  }

  /** Reading back the encoding of any u64 yields it, whatever bytes follow. */
  lemma ReadInvertsEncode(value: u64, tail: seq<byte>)
    ensures ReadVarint(EncodeVarint(value) + tail) == Some((value, |EncodeVarint(value)|))
    ensures 1 <= |EncodeVarint(value)| <= MAXIMUM_VARINT_BYTES
  {
    FullCapacity();
    VarintAtInvertsEncode(value, 0, tail);
  }

  /** `decode_varint` as written: a loop over at most ten bytes that ORs shifted groups together. */
  method DecodeVarint(encoded: seq<byte>) returns (r: Option<(u64, nat)>)
    ensures r == ReadVarint(encoded)
  {
    var value: nat := 0;
    var weight: nat := 1;   // 1 << (index * 7); the groups do not overlap, so OR is addition
    var index := 0;
    FitsU64(encoded);
    while index < Min(|encoded|, MAXIMUM_VARINT_BYTES)
      invariant 0 <= index <= Min(|encoded|, MAXIMUM_VARINT_BYTES)
      invariant match VarintAt(encoded[index..], index)
                case None => VarintAt(encoded, 0) == None
                case Some((rest, count)) => VarintAt(encoded, 0) == Some((value + weight * rest, index + count))
    {
      var payload := encoded[index] % 128;
      if index == 9 && payload > 1 {
        return None;
      }
      ghost var remaining := VarintAt(encoded[index + 1..], index + 1);
      assert encoded[index..][1..] == encoded[index + 1..];
      if encoded[index] >= 128 && remaining.Some? {
        Distribute(weight, payload, remaining.value.0);
      }
      value := value + weight * payload;
      if encoded[index] < 128 {
        return Some((value, index + 1));
      }
      weight := weight * 128;
      index := index + 1;
    }
    return None;
  }

  lemma Distribute(weight: nat, payload: nat, high: nat)
    ensures weight * (payload + 128 * high) == weight * payload + weight * 128 * high
  {
  }
}
