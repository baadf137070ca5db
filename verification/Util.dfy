/** Result types, fixed-width integers and little-endian byte codecs shared by every component. */
module Util {

  datatype Option<+T> = None | Some(value: T)

  datatype Result<+T, +E> = Ok(value: T) | Err(error: E)

  type byte = x: int | 0 <= x < 256

  const U16 := 0x1_0000
  const U32 := 0x1_0000_0000
  const U64 := 0x1_0000_0000_0000_0000

  type u16 = x: int | 0 <= x < U16
  type u32 = x: int | 0 <= x < U32
  type i32 = x: int | -0x8000_0000 <= x < 0x8000_0000
  type u64 = x: int | 0 <= x < U64

  /** Number of values an unsigned integer of `n` bytes can take. */
  function Capacity(n: nat): (c: nat)
    ensures c >= 1
  {
    if n == 0 then 1 else 256 * Capacity(n - 1)
  }

  lemma CapacityOfWidths()
    ensures Capacity(2) == U16 && Capacity(4) == U32 && Capacity(8) == U64
  {
    assert Capacity(2) == 256 * Capacity(1);
    assert Capacity(4) == 256 * Capacity(3) == 256 * 256 * Capacity(2);
    assert Capacity(6) == 256 * Capacity(5) == 256 * 256 * Capacity(4);
    assert Capacity(8) == 256 * Capacity(7) == 256 * 256 * Capacity(6);
  }

  /** The `to_le_bytes` of an unsigned integer: the low `n` bytes of `v`, least significant first. */
  function LeBytes(v: nat, n: nat): (bytes: seq<byte>)
    ensures |bytes| == n
  {
    if n == 0 then [] else [v % 256] + LeBytes(v / 256, n - 1)
  }

  /** The `from_le_bytes` of a byte string. */
  function LeNat(bytes: seq<byte>): (v: nat)
  {
    if bytes == [] then 0 else bytes[0] + 256 * LeNat(bytes[1..])
  }

  lemma {:induction false} LeNatBound(bytes: seq<byte>)
    ensures LeNat(bytes) < Capacity(|bytes|)
  {
    if bytes != [] {
      LeNatBound(bytes[1..]);
    }
  }

  lemma {:induction false} LeRoundTrip(v: nat, n: nat)
    requires v < Capacity(n)
    ensures LeNat(LeBytes(v, n)) == v
  {
    if n > 0 {
      LeRoundTrip(v / 256, n - 1);
      assert LeBytes(v, n)[1..] == LeBytes(v / 256, n - 1);
    }
  }

  lemma DivideTwice(v: nat, c: nat)
    requires c > 0
    ensures v / 256 / c == v / (256 * c)
  {
    var d, q := 256 * c, v / 256 / c;
    var rest := v - d * q;
    assert v / 256 == c * q + v / 256 % c;
    assert d * q == 256 * (c * q);
    assert 0 <= rest < d;
    QuotientIs(v, d, q, rest);
  }

  lemma QuotientIs(v: nat, d: nat, q: nat, rest: nat)
    requires v == d * q + rest && rest < d
    ensures v / d == q
  {
    assert d * (v / d - q) == rest - v % d;
    MultipleIsFar(d, v / d - q);
  }

  lemma MultipleIsFar(d: nat, k: int)
    requires d > 0
    ensures k >= 1 ==> d * k >= d
    ensures k <= -1 ==> d * k + d <= 0
  {
  }

  /** The byte at place `k` is worth 256 to the power `k`: the least significant byte comes first. */
  lemma {:induction false} LeBytesMeans(v: nat, n: nat, k: nat)
    requires k < n
    ensures LeBytes(v, n)[k] == v / Capacity(k) % 256
  {
    if k > 0 {
      LeBytesMeans(v / 256, n - 1, k - 1);
      DivideTwice(v, Capacity(k - 1));
    }
  }
}
