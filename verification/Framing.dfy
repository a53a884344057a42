// Encodings laid out one after the other in a buffer.
module Framing {
  import opened Bytes

  /** x stands in b from offset at on. */
  predicate Stands(b: seq<byte>, at: nat, x: seq<byte>) {
    at + |x| <= |b| && b[at..at + |x|] == x
  }

  lemma StandsSplit(b: seq<byte>, at: nat, x: seq<byte>, y: seq<byte>)
    ensures Stands(b, at, x + y) <==> Stands(b, at, x) && Stands(b, at + |x|, y)
  {
    if Stands(b, at, x + y) {
      SliceOfSlice(b, at, at + |x + y|, 0, |x|);
      SliceOfSlice(b, at, at + |x + y|, |x|, |x + y|);
      assert (x + y)[0..|x|] == x && (x + y)[|x|..|x + y|] == y;
    }
    if Stands(b, at, x) && Stands(b, at + |x|, y) {
      assert b[at..at + |x + y|] == b[at..at + |x|] + b[at + |x|..at + |x| + |y|];
    }
  }

  /** Two encodings of equal length at the same place are equal. */
  lemma StandsUnique(b: seq<byte>, at: nat, x: seq<byte>, y: seq<byte>)
    requires Stands(b, at, x) && Stands(b, at, y) && |x| == |y|
    ensures x == y
  {
  }

  lemma StandsU32(b: seq<byte>, at: nat, v: nat)
    requires v < 0x1_0000_0000
    ensures Stands(b, at, LE(4, v)) <==> at + 4 <= |b| && U32(b, at) == v
  {
    Powers();
    UIntOfLE(4, v);
    if at + 4 <= |b| && U32(b, at) == v {
      UIntInjective(b[at..at + 4], LE(4, v));
    }
  }

  lemma StandsU16(b: seq<byte>, at: nat, v: nat)
    requires v < 0x1_0000
    ensures Stands(b, at, LE16(v)) <==> at + 2 <= |b| && U16(b, at) == v
  {
    if at + 2 <= |b| {
      var s := b[at..at + 2];
      assert s[0] == b[at] && s[1] == b[at + 1];
      assert s == LE16(v) <==> s[0] == LE16(v)[0] && s[1] == LE16(v)[1];
    }
  }

  lemma StandsSlice(b: seq<byte>, at: nat, n: nat)
    requires at + n <= |b|
    ensures Stands(b, at, b[at..at + n])
  {
  }

  lemma StandsMeans(b: seq<byte>, at: nat, x: seq<byte>)
    ensures Stands(b, at, x) <==> at + |x| <= |b| && b[at..at + |x|] == x
  {
  }
}
