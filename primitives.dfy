/**
 * Fixed-width integers, their big-endian byte forms, and the compact
 * variable-length integer (varint) used by every Bitmessage wire structure.
 */
module Primitives {

  type uint8 = x: int | 0 <= x < 0x100
  type uint32 = x: int | 0 <= x < 0x1_0000_0000
  type uint64 = x: int | 0 <= x < 0x1_0000_0000_0000_0000
  type int64 = x: int | -0x8000_0000_0000_0000 <= x < 0x8000_0000_0000_0000

  /** A byte slice: no Go slice is 2^64 bytes long. */
  type Bytes = s: seq<uint8> | |s| < 0x1_0000_0000_0000_0000

  /** The longest varint: a prefix byte and eight value bytes. */
  const MaxVarIntSize: nat := 9

  function Pow256(n: nat): (r: nat)
    ensures r > 0
  {
    if n == 0 then 1 else 256 * Pow256(n - 1)
  }

  lemma Pow256Values()
    ensures Pow256(1) == 0x100 && Pow256(2) == 0x1_0000
    ensures Pow256(4) == 0x1_0000_0000
    ensures Pow256(8) == 0x1_0000_0000_0000_0000
  {
  }

  /** The n-byte big-endian representation of x. */
  function BigEndian(x: nat, n: nat): (r: seq<uint8>)
    requires x < Pow256(n)
    ensures |r| == n
  {
    if n == 0 then [] else BigEndian(x / 256, n - 1) + [x % 256]
  }

  /** The number whose big-endian representation is s. */
  function FromBigEndian(s: seq<uint8>): (r: nat)
    ensures r < Pow256(|s|)
  {
    if s == [] then 0 else FromBigEndian(s[..|s| - 1]) * 256 + s[|s| - 1]
  }

  lemma {:induction false} FromBigEndianOfBigEndian(x: nat, n: nat)
    requires x < Pow256(n)
    ensures FromBigEndian(BigEndian(x, n)) == x
  {
    if n > 0 {
      var s := BigEndian(x, n);
      assert s[..n - 1] == BigEndian(x / 256, n - 1);
      FromBigEndianOfBigEndian(x / 256, n - 1);
    }
  }

  lemma {:induction false} BigEndianOfFromBigEndian(s: seq<uint8>)
    ensures BigEndian(FromBigEndian(s), |s|) == s
  {
    if s != [] {
      var init := s[..|s| - 1];
      BigEndianOfFromBigEndian(init);
      assert s == init + [s[|s| - 1]];
    }
  }

  /** Eight big-endian bytes of x in two's complement. */
  function Int64Bytes(x: int64): (r: seq<uint8>)
    ensures |r| == 8
  {
    Pow256Values();
    BigEndian(if x < 0 then x + 0x1_0000_0000_0000_0000 else x, 8)
  }

  /** The signed 64-bit integer whose two's complement big-endian form is s. */
  function Int64FromBytes(s: seq<uint8>): int64
    requires |s| == 8
  {
    Pow256Values();
    var u := FromBigEndian(s);
    if u < 0x8000_0000_0000_0000 then u else u - 0x1_0000_0000_0000_0000
  }

  lemma Int64RoundTrip(x: int64)
    ensures Int64FromBytes(Int64Bytes(x)) == x
  {
    Pow256Values();
    FromBigEndianOfBigEndian(if x < 0 then x + 0x1_0000_0000_0000_0000 else x, 8);
  }

  /** How many big-endian bytes follow the prefix byte in the varint form of x. */
  function VarIntWidth(x: uint64): (n: nat)
    ensures n == 0 <==> x < 0xfd
    ensures n == 0 || n == 2 || n == 4 || n == 8
  {
    if x < 0xfd then 0 else if x <= 0xffff then 2 else if x <= 0xffff_ffff then 4 else 8
  }

  /** The value fits the width the varint form gives it. */
  lemma VarIntWidthFits(x: uint64)
    ensures VarIntWidth(x) > 0 ==> x < Pow256(VarIntWidth(x))
  {
    Pow256Values();
  }

  /**
   * The varint form of x: one byte below 0xfd; otherwise the prefix 0xfd,
   * 0xfe or 0xff followed by 2, 4 or 8 big-endian bytes. The encoder always
   * chooses the shortest form that holds x.
   */
  function VarIntBytes(x: uint64): (r: seq<uint8>)
    ensures |r| == 1 + VarIntWidth(x)
    ensures 1 <= |r| <= MaxVarIntSize
  {
    var n := VarIntWidth(x);
    VarIntWidthFits(x);
    if n == 0 then [x] else [if n == 2 then 0xfd else if n == 4 then 0xfe else 0xff] + BigEndian(x, n)
  }

  /** The pieces of a varint: its prefix byte and, past it, the value in big-endian form. */
  lemma VarIntBytesParts(x: uint64)
    ensures var r := VarIntBytes(x);
      && (|r| == 1 ==> r[0] == x)
      && (|r| > 1 ==> r[0] == 0xfd + (if |r| == 3 then 0 else if |r| == 5 then 1 else 2))
      && (|r| > 1 ==> FromBigEndian(r[1..]) == x)
  {
    var r := VarIntBytes(x);
    var n := VarIntWidth(x);
    VarIntWidthFits(x);
    if n > 0 {
      assert r[1..] == BigEndian(x, n);
      FromBigEndianOfBigEndian(x, n);
    }
  }
}
