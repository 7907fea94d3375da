/** Bytes and the big-endian unsigned integer reads of a byte cursor. */
module Bytes {
  import opened Wrappers

  type byte = x: nat | x < 256

  /** 256 to the power `n`: the number of distinct `n`-byte values. */
  function Pow256(n: nat): (r: nat)
    ensures r >= 1
  {
    if n == 0 then 1 else 256 * Pow256(n - 1)
  }

  /** The unsigned integer whose big-endian encoding is `s`. */
  function FromBE(s: seq<byte>): nat
  {
    if |s| == 0 then 0 else FromBE(s[..|s| - 1]) * 256 + s[|s| - 1]
  }

  /** The `width`-byte big-endian encoding of `v`. */
  function ToBE(v: nat, width: nat): (r: seq<byte>)
    requires v < Pow256(width)
    ensures |r| == width
  {
    if width == 0 then [] else ToBE(v / 256, width - 1) + [v % 256]
  }

  /** A big-endian read of `width` bytes at `pos`, as a byte cursor
      positioned at `pos` performs it: it fails when fewer than `width`
      bytes remain. */
  function ReadBE(d: seq<byte>, pos: nat, width: nat): (r: Option<nat>)
    ensures r.Some? <==> pos + width <= |d|
    ensures r.Some? ==> r.value < Pow256(width)
  {
    if pos + width <= |d| then
      FromBEBound(d[pos..pos + width]);
      Some(FromBE(d[pos..pos + width]))
    else None
  }

  /** Read as `u16`, `u32` and `u64` in the big-endian byte order. */
  function ReadU16(d: seq<byte>, pos: nat): Option<nat> { ReadBE(d, pos, 2) }
  function ReadU32(d: seq<byte>, pos: nat): Option<nat> { ReadBE(d, pos, 4) }
  function ReadU64(d: seq<byte>, pos: nat): Option<nat> { ReadBE(d, pos, 8) }

  /** A big-endian value of `n` bytes is below `256^n`. */
  lemma {:induction false} FromBEBound(s: seq<byte>)
    ensures FromBE(s) < Pow256(|s|)
  {
    if |s| > 0 {
      FromBEBound(s[..|s| - 1]);
    }
  }

  /** Decoding an encoding gives the value back. */
  lemma {:induction false} FromToBE(v: nat, width: nat)
    requires v < Pow256(width)
    ensures FromBE(ToBE(v, width)) == v
  {
    if width > 0 {
      var s := ToBE(v, width);
      assert s[..|s| - 1] == ToBE(v / 256, width - 1);
      FromToBE(v / 256, width - 1);
    }
  }

  /** Reading `width` bytes where an encoding of `v` sits yields `v`,
      whatever surrounds it. */
  lemma ReadEncoded(d: seq<byte>, pos: nat, v: nat, width: nat)
    requires v < Pow256(width)
    requires pos + width <= |d|
    requires d[pos..pos + width] == ToBE(v, width)
    ensures ReadBE(d, pos, width) == Some(v)
  {
    FromToBE(v, width);
  }

  lemma PowersUsed()
    ensures Pow256(2) == 0x1_0000
    ensures Pow256(4) == 0x1_0000_0000
    ensures Pow256(8) == 0x1_0000_0000_0000_0000
  {
    calc {
      Pow256(8);
      256 * 256 * 256 * 256 * Pow256(4);
    }
  }
}
