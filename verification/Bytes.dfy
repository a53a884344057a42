// Bytes, results and the little- and big-endian integer codecs shared by the
// on-disk and in-firmware formats.
module Bytes {

  type byte = x: int | 0 <= x < 256

  const INT32_LIMIT := 0x8000_0000
  const INT64_LIMIT := 0x8000_0000_0000_0000

  type int32 = x: int | -INT32_LIMIT <= x < INT32_LIMIT
  type int64 = x: int | -INT64_LIMIT <= x < INT64_LIMIT

  datatype Option<+T> = None | Some(value: T)

  /** The outcome of an operation that the source ends by returning or by throwing. */
  datatype Result<+T> = Ok(value: T) | Err(message: string)

  lemma SliceOfSlice<T>(s: seq<T>, lo: nat, hi: nat, x: nat, y: nat)
    requires lo <= hi <= |s| && x <= y <= hi - lo
    ensures s[lo..hi][x..y] == s[lo + x..lo + y]
  {
    var u, v := s[lo..hi][x..y], s[lo + x..lo + y];
    forall k | 0 <= k < |u|
      ensures u[k] == v[k]
    {
    }
  }

  lemma SliceOfUpdate<T>(s: seq<T>, i: nat, t: T, x: nat, y: nat)
    requires i < |s| && x <= y <= |s| && (i < x || y <= i)
    ensures s[i := t][x..y] == s[x..y]
  {
    var u, v := s[i := t][x..y], s[x..y];
    forall k | 0 <= k < |u|
      ensures u[k] == v[k]
    {
    }
  }

  lemma Regroup<T>(a: seq<T>, b: seq<T>, c: seq<T>)
    ensures a + (b + c) == a + b + c
  {
  }

  lemma Subsets<T>(a: set<T>, b: set<T>)
    requires a <= b
    ensures |a| <= |b| && (|a| == |b| ==> a == b)
  {
    assert b == a + (b - a);
  }

  function Zeros(n: nat): (z: seq<byte>)
    ensures |z| == n && forall i :: 0 <= i < n ==> z[i] == 0
  {
    seq(n, i => 0)
  }

  function Pow256(n: nat): (p: nat)
    ensures p >= 1
  {
    if n == 0 then 1 else 256 * Pow256(n - 1)
  }

  /** The n low-order bytes of v, least significant first. */
  function LE(n: nat, v: nat): (b: seq<byte>)
    ensures |b| == n
  {
    if n == 0 then [] else [v % 256] + LE(n - 1, v / 256)
  }

  /** The natural number spelled by b, least significant byte first. */
  function UInt(b: seq<byte>): (v: nat)
    ensures v < Pow256(|b|)
  {
    if b == [] then 0 else b[0] + 256 * UInt(b[1..])
  }

  lemma {:induction false} UIntOfLE(n: nat, v: nat)
    requires v < Pow256(n)
    ensures UInt(LE(n, v)) == v
  {
    if n > 0 {
      UIntOfLE(n - 1, v / 256);
      assert LE(n, v)[1..] == LE(n - 1, v / 256);
    }
  }

  lemma {:induction false} LEOfUInt(b: seq<byte>)
    ensures LE(|b|, UInt(b)) == b
  {
    if b != [] {
      LEOfUInt(b[1..]);
      var v := UInt(b);
      assert v % 256 == b[0] && v / 256 == UInt(b[1..]);
      assert LE(|b|, v) == [b[0]] + LE(|b| - 1, UInt(b[1..]));
    }
  }

  lemma UIntInjective(a: seq<byte>, b: seq<byte>)
    requires |a| == |b| && UInt(a) == UInt(b)
    ensures a == b
  {
    LEOfUInt(a);
    LEOfUInt(b);
  }

  lemma {:induction false} UIntZero(b: seq<byte>)
    ensures UInt(b) == 0 <==> b == Zeros(|b|)
  {
    if b != [] {
      UIntZero(b[1..]);
      assert Zeros(|b|)[1..] == Zeros(|b| - 1);
      assert b == [b[0]] + b[1..];
      assert Zeros(|b|) == [0] + Zeros(|b|)[1..];
    }
  }

  lemma Powers()
    ensures Pow256(2) == 0x1_0000
    ensures Pow256(4) == 0x1_0000_0000
    ensures Pow256(8) == 0x1_0000_0000_0000_0000
  {
    assert Pow256(2) == 256 * Pow256(1);
    assert Pow256(3) == 256 * Pow256(2);
    assert Pow256(4) == 256 * Pow256(3);
    assert Pow256(5) == 256 * Pow256(4);
    assert Pow256(6) == 256 * Pow256(5);
    assert Pow256(7) == 256 * Pow256(6);
    assert Pow256(8) == 256 * Pow256(7);
  }

  // Unsigned reads, as BitConverter performs them on a little-endian host.

  function U16(b: seq<byte>, p: nat): (v: nat)
    requires p + 2 <= |b|
    ensures v < 0x1_0000
  {
    var low: int, high: int := b[p], b[p + 1];
    low + 256 * high
  }

  function U32(b: seq<byte>, p: nat): (v: nat)
    requires p + 4 <= |b|
    ensures v < 0x1_0000_0000
  {
    Powers();
    UInt(b[p..p + 4])
  }

  function U64(b: seq<byte>, p: nat): (v: nat)
    requires p + 8 <= |b|
    ensures v < 0x1_0000_0000_0000_0000
  {
    Powers();
    UInt(b[p..p + 8])
  }

  // Two's-complement reinterpretations.

  function AsInt32(v: nat): (r: int32)
    requires v < 0x1_0000_0000
  {
    if v < INT32_LIMIT then v else v - 0x1_0000_0000
  }

  function AsInt64(v: nat): (r: int64)
    requires v < 0x1_0000_0000_0000_0000
  {
    if v < INT64_LIMIT then v else v - 0x1_0000_0000_0000_0000
  }

  function I32(b: seq<byte>, p: nat): (v: int32)
    requires p + 4 <= |b|
  {
    AsInt32(U32(b, p))
  }

  function I64(b: seq<byte>, p: nat): (v: int64)
    requires p + 8 <= |b|
  {
    AsInt64(U64(b, p))
  }

  function LE16(v: nat): (b: seq<byte>)
    requires v < 0x1_0000
    ensures |b| == 2 && U16(b, 0) == v
  {
    [v % 256, v / 256]
  }

  function LE32(v: int32): (b: seq<byte>)
    ensures |b| == 4 && I32(b, 0) == v
  {
    Powers();
    var u := if v < 0 then v + 0x1_0000_0000 else v;
    UIntOfLE(4, u);
    var b := LE(4, u);
    assert b[0..4] == b;
    b
  }

  function LE64(v: int64): (b: seq<byte>)
    ensures |b| == 8 && I64(b, 0) == v
  {
    Powers();
    var u := if v < 0 then v + 0x1_0000_0000_0000_0000 else v;
    UIntOfLE(8, u);
    var b := LE(8, u);
    assert b[0..8] == b;
    b
  }

  lemma Read32(b: seq<byte>, p: nat, v: int32)
    requires p + 4 <= |b| && b[p..p + 4] == LE32(v)
    ensures I32(b, p) == v
  {
    assert LE32(v)[0..4] == LE32(v);
  }

  lemma Read64(b: seq<byte>, p: nat, v: int64)
    requires p + 8 <= |b| && b[p..p + 8] == LE64(v)
    ensures I64(b, p) == v
  {
    assert LE64(v)[0..8] == LE64(v);
  }

  /** The n low-order bytes of v, most significant first. */
  function BE(n: nat, v: nat): (b: seq<byte>)
    ensures |b| == n
  {
    if n == 0 then [] else BE(n - 1, v / 256) + [v % 256]
  }

  lemma {:induction false} BEInjective(n: nat, v: nat, w: nat)
    requires v < Pow256(n) && w < Pow256(n)
    requires BE(n, v) == BE(n, w)
    ensures v == w
  {
    if n > 0 {
      assert BE(n, v)[..n - 1] == BE(n - 1, v / 256);
      assert BE(n, w)[..n - 1] == BE(n - 1, w / 256);
      BEInjective(n - 1, v / 256, w / 256);
      assert BE(n, v)[n - 1] == v % 256;
    }
  }

  /** The UTF-16 code units of an ASCII text, as Encoding.Unicode.GetBytes lays them out. */
  function Utf16(text: string): (b: seq<byte>)
    requires forall i :: 0 <= i < |text| ==> text[i] < 128 as char
    ensures |b| == 2 * |text|
    ensures forall i :: 0 <= i < |text| ==> b[2 * i] == text[i] as int && b[2 * i + 1] == 0
  {
    if text == "" then [] else [text[0] as int, 0] + Utf16(text[1..])
  }

  /** Copies v over the bytes of b from p on, as the source's Put does. */
  method Put(b: array<byte>, p: nat, v: seq<byte>)
    requires p + |v| <= b.Length
    modifies b
    ensures forall k :: p <= k < p + |v| ==> b[k] == v[k - p]
    ensures forall k :: 0 <= k < b.Length && !(p <= k < p + |v|) ==> b[k] == old(b[k])
  {
    forall k | 0 <= k < |v| {
      b[p + k] := v[k];
    }
  }
}
