/** Integer widths and result types shared by every module of the model. */
module Prelude {
  const U16_MAX := 0xFFFF
  const U64_MAX := 0xFFFF_FFFF_FFFF_FFFF

  type byte = b: int | 0 <= b < 256
  type u16 = n: int | 0 <= n <= U16_MAX
  type u32 = n: int | 0 <= n <= 0xFFFF_FFFF
  type u64 = n: int | 0 <= n <= U64_MAX

  // The supported targets have 64-bit addresses.
  const USIZE_MAX := U64_MAX

  datatype Option<+T> = None | Some(value: T)

  datatype Result<+T, +E> = Ok(value: T) | Err(error: E)

  function Max(a: int, b: int): int {
    if a < b then b else a
  }

  function Min(a: int, b: int): int {
    if a < b then a else b
  }

  /** `u64::saturating_sub`. */
  function SaturatingSub(a: nat, b: nat): nat {
    if a < b then 0 else a - b
  }

  /** `u64::saturating_add`. */
  function SaturatingAdd(a: nat, b: nat): nat {
    Min(a + b, U64_MAX)
  }

  /** `u64::saturating_mul`. */
  function SaturatingMul(a: nat, b: nat): nat {
    Min(a * b, U64_MAX)
  }

  lemma DropPrefix<T>(a: seq<T>, b: seq<T>)
    ensures (a + b)[..|a|] == a && (a + b)[|a|..] == b
  {
  }

  lemma Associate<T>(a: seq<T>, b: seq<T>, c: seq<T>)
    ensures a + (b + c) == a + b + c
  {
  }

  lemma DropTwice<T>(s: seq<T>, i: nat, j: nat)
    requires i + j <= |s|
    ensures s[i..][j..] == s[i + j..]
    ensures s[i..][..j] == s[i..i + j]
  {
  }

  // ---- Integers in network byte order --------------------------------------

  function BigEndian(value: nat, width: nat): (bytes: seq<byte>)
    ensures |bytes| == width
  {
    if width == 0 then [] else BigEndian(value / 256, width - 1) + [value % 256]
  }

  function FromBigEndian(bytes: seq<byte>): nat {
    if bytes == [] then 0 else FromBigEndian(bytes[..|bytes| - 1]) * 256 + bytes[|bytes| - 1]
  }

  function Power256(width: nat): (power: nat)
    ensures power > 0
  {
    if width == 0 then 1 else 256 * Power256(width - 1)
  }

  lemma {:induction false} BigEndianRoundTrip(value: nat, width: nat)
    requires value < Power256(width)
    ensures FromBigEndian(BigEndian(value, width)) == value
  {
    if width != 0 {
      BigEndianRoundTrip(value / 256, width - 1);
      assert BigEndian(value, width)[..width - 1] == BigEndian(value / 256, width - 1);
    }
  }

  lemma {:induction false} FromBigEndianBound(bytes: seq<byte>)
    ensures FromBigEndian(bytes) < Power256(|bytes|)
  {
    if bytes != [] { FromBigEndianBound(bytes[..|bytes| - 1]); }
  }

  lemma EightBytes()
    ensures Power256(8) == U64_MAX + 1
  {
    assert Power256(4) == 0x1_0000_0000;
    assert Power256(6) == 0x1_0000_0000_0000;
  }

  lemma {:induction false} ToBigEndian(bytes: seq<byte>)
    ensures BigEndian(FromBigEndian(bytes), |bytes|) == bytes
  {
    if bytes != [] { ToBigEndian(bytes[..|bytes| - 1]); }
  }

  /** The most significant byte comes first. */
  lemma {:induction false} BigEndianDigit(value: nat, width: nat, k: nat)
    requires k < width
    ensures BigEndian(value, width)[k] == value / Power256(width - 1 - k) % 256
  {
    if k < width - 1 {
      BigEndianDigit(value / 256, width - 1, k);
      DivideTwice(value, Power256(width - 2 - k));
    }
  }

  lemma DivideTwice(value: nat, power: nat)
    requires power > 0
    ensures value / 256 / power == value / (256 * power)
  {
    var q, r := value / 256 / power, value / 256 % power;
    assert value == 256 * (q * power + r) + value % 256;
    assert 256 * (q * power + r) == q * (256 * power) + 256 * r;
    QuotientIs(value, 256 * power, q, 256 * r + value % 256);
  }

  lemma AtLeastOnce(count: nat, size: nat)
    requires count > 0
    ensures count * size >= size
  {
  }

  lemma QuotientIs(value: nat, divisor: nat, quotient: nat, rest: nat)
    requires divisor > 0 && rest < divisor && value == quotient * divisor + rest
    ensures value / divisor == quotient
  {
    var gap := quotient - value / divisor;
    assert gap * divisor == value % divisor - rest by {
      assert value == value / divisor * divisor + value % divisor;
      assert gap * divisor == quotient * divisor - value / divisor * divisor;
    }
    if gap != 0 { AtLeastOnce(if gap > 0 then gap else -gap, divisor); }
  }
}
