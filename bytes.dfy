/** Fixed-width unsigned integers and their big-endian byte encoding
    (Rust's `u8`, `u32`, `TryFrom<usize>` and `u32::to_be_bytes`). */
module Bytes {
  import opened Wrappers

  const U8_LIMIT: nat := 0x100
  const U32_LIMIT: nat := 0x1_0000_0000

  type byte = b: int | 0 <= b < U8_LIMIT
  type u8 = byte
  type u32 = n: int | 0 <= n < U32_LIMIT

  /** The failure of a narrowing integer conversion (`TryFromIntError`). */
  datatype Overflow = Overflow

  /** `usize::try_into::<u8>()`: lossless or an error, never truncation. */
  function TryIntoU8(n: nat): (r: Result<u8, Overflow>)
    ensures r.Success? <==> n < U8_LIMIT
    ensures r.Success? ==> r.value == n
  {
    if n < U8_LIMIT then Success(n) else Failure(Overflow)
  }

  /** `usize::try_into::<u32>()`: lossless or an error, never truncation. */
  function TryIntoU32(n: nat): (r: Result<u32, Overflow>)
    ensures r.Success? <==> n < U32_LIMIT
    ensures r.Success? ==> r.value == n
  {
    if n < U32_LIMIT then Success(n) else Failure(Overflow)
  }

  /** 256 to the power k: the number of values k bytes can hold. */
  function Pow256(k: nat): (r: nat)
    ensures r > 0
  {
    if k == 0 then 1 else 0x100 * Pow256(k - 1)
  }

  /** The k-byte big-endian encoding of n, most significant byte first. */
  function ToBe(n: nat, k: nat): (r: seq<byte>)
    requires n < Pow256(k)
    ensures |r| == k
  {
    if k == 0 then [] else ToBe(n / 0x100, k - 1) + [n % 0x100]
  }

  /** The number a big-endian byte string stands for. */
  function FromBe(s: seq<byte>): (r: nat)
    ensures r < Pow256(|s|)
  {
    if s == [] then 0 else FromBe(s[..|s| - 1]) * 0x100 + s[|s| - 1]
  }

  /** Decoding an encoding gives the number back. */
  lemma {:induction false} FromBeToBe(n: nat, k: nat)
    requires n < Pow256(k)
    ensures FromBe(ToBe(n, k)) == n
  {
    if k > 0 {
      var s := ToBe(n, k);
      assert s[..k - 1] == ToBe(n / 0x100, k - 1);
      FromBeToBe(n / 0x100, k - 1);
    }
  }

  /** Encoding a decoded string gives the string back: every k-byte string
      is the encoding of exactly one number. */
  lemma {:induction false} ToBeFromBe(s: seq<byte>)
    ensures ToBe(FromBe(s), |s|) == s
  {
    if s != [] {
      var n := FromBe(s);
      var init := s[..|s| - 1];
      assert n / 0x100 == FromBe(init) && n % 0x100 == s[|s| - 1];
      ToBeFromBe(init);
      assert s == init + [s[|s| - 1]];
    }
  }

  /** `u32::to_be_bytes`. */
  function BeU32(n: u32): (r: seq<byte>)
    ensures |r| == 4
    ensures FromBe(r) == n
  {
    FromBeToBe(n, 4);
    ToBe(n, 4)
  }

  /** The four bytes of `to_be_bytes` are the base-256 digits of n,
      most significant first. */
  lemma BeU32Digits(n: u32)
    ensures BeU32(n) == [n / 0x100_0000, n / 0x1_0000 % 0x100, n / 0x100 % 0x100, n % 0x100]
  {
    var q1 := n / 0x100;
    var q2 := q1 / 0x100;
    var q3 := q2 / 0x100;
    assert q2 == n / 0x1_0000;
    assert q3 == n / 0x100_0000;
    assert q3 < 0x100;
    assert ToBe(q3, 1) == [q3];
    assert ToBe(q2, 2) == [q3, q2 % 0x100];
    assert ToBe(q1, 3) == [q3, q2 % 0x100, q1 % 0x100];
  }
}
