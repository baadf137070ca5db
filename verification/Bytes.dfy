/** Reading and writing integers at offsets of a byte buffer. */
module Bytes {
  import opened Util

  function Splice(b: seq<byte>, at: nat, d: seq<byte>): (r: seq<byte>)
    requires at + |d| <= |b|
    ensures |r| == |b|
  {
    b[..at] + d + b[at + |d|..]
  }

  /** A write is seen by a read of the same range and by no read of a range apart from it. */
  lemma SpliceReads(b: seq<byte>, at: nat, d: seq<byte>, lo: nat, hi: nat)
    requires at + |d| <= |b| && lo <= hi <= |b|
    ensures lo == at && hi == at + |d| ==> Splice(b, at, d)[lo..hi] == d
    ensures hi <= at || at + |d| <= lo ==> Splice(b, at, d)[lo..hi] == b[lo..hi]
  {
    var r := Splice(b, at, d);
    assert forall k :: 0 <= k < at || at + |d| <= k < |b| ==> r[k] == b[k];
    assert forall k :: 0 <= k < |d| ==> r[at + k] == d[k];
    assert forall k :: 0 <= k < hi - lo ==> r[lo..hi][k] == r[lo + k];
  }

  function U16At(b: seq<byte>, at: nat): (v: u16)
    requires at + 2 <= |b|
  {
    LeNatBound(b[at..at + 2]);
    CapacityOfWidths();
    LeNat(b[at..at + 2])
  }

  function U32At(b: seq<byte>, at: nat): (v: u32)
    requires at + 4 <= |b|
  {
    LeNatBound(b[at..at + 4]);
    CapacityOfWidths();
    LeNat(b[at..at + 4])
  }

  function U64At(b: seq<byte>, at: nat): (v: u64)
    requires at + 8 <= |b|
  {
    LeNatBound(b[at..at + 8]);
    CapacityOfWidths();
    LeNat(b[at..at + 8])
  }

  function U16Bytes(v: u16): (r: seq<byte>)
    ensures |r| == 2
  {
    LeBytes(v, 2)
  }

  lemma U16RoundTrip(b: seq<byte>, at: nat, v: u16)
    requires at + 2 <= |b| && b[at..at + 2] == U16Bytes(v)
    ensures U16At(b, at) == v
  {
    CapacityOfWidths();
    LeRoundTrip(v, 2);
  }

  lemma U32RoundTrip(b: seq<byte>, at: nat, v: u32)
    requires at + 4 <= |b| && b[at..at + 4] == LeBytes(v, 4)
    ensures U32At(b, at) == v
  {
    CapacityOfWidths();
    LeRoundTrip(v, 4);
  }

  lemma U64RoundTrip(b: seq<byte>, at: nat, v: u64)
    requires at + 8 <= |b| && b[at..at + 8] == LeBytes(v, 8)
    ensures U64At(b, at) == v
  {
    CapacityOfWidths();
    LeRoundTrip(v, 8);
  }

  lemma SliceOfSlice(b: seq<byte>, at: nat, size: nat, lo: nat, hi: nat)
    requires at + size <= |b| && lo <= hi <= size
    ensures b[at..at + size][lo..hi] == b[at + lo..at + hi]
  {
    var t := b[at..at + size];
    assert forall k :: 0 <= k < hi - lo ==> t[lo..hi][k] == t[lo + k] == b[at + lo + k] == b[at + lo..at + hi][k];
  }
}
