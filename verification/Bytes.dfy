/** Bytes, concatenation of byte strings, and the little-endian two's-complement
    integers that the shared-memory and control-pipe formats are made of. */
module Bytes {

  type byte = x: int | 0 <= x < 256

  type int32 = x: int | -0x8000_0000 <= x < 0x8000_0000

  type int64 = x: int | -0x8000_0000_0000_0000 <= x < 0x8000_0000_0000_0000

  type positive = x: int | 0 < x witness 1

  function Min(a: int, b: int): int {
    if a < b then a else b
  }

  /** What C does when it converts `n` to a 32-bit int. */
  function ToInt32(n: int): int32 {
    var m := n % 0x1_0000_0000;
    if m < 0x8000_0000 then m else m - 0x1_0000_0000
  }

  /** It is the one 32-bit integer that differs from `n` by a multiple of 2^32. */
  lemma ToInt32Wraps(n: int, v: int32)
    ensures v == ToInt32(n) <==> (n - v) % 0x1_0000_0000 == 0
  {}

  lemma SmallIsKept(n: nat)
    requires n < 0x8000_0000
    ensures ToInt32(n) == n
  {}

  // ----- Concatenation

  function Concat(parts: seq<seq<byte>>): seq<byte> {
    if parts == [] then [] else parts[0] + Concat(parts[1..])
  }

  lemma {:induction false} ConcatAppend(a: seq<seq<byte>>, b: seq<seq<byte>>)
    ensures Concat(a + b) == Concat(a) + Concat(b)
  {
    if a == [] {
      assert a + b == b;
    } else {
      assert (a + b)[1..] == a[1..] + b;
      ConcatAppend(a[1..], b);
    }
  }

  lemma ConcatCons(x: seq<byte>, a: seq<seq<byte>>)
    ensures Concat([x] + a) == x + Concat(a)
  {
    assert ([x] + a)[1..] == a;
  }

  lemma ConcatSnoc(a: seq<seq<byte>>, x: seq<byte>)
    ensures Concat(a + [x]) == Concat(a) + x
  {
    ConcatAppend(a, [x]);
    assert Concat([x]) == x + Concat([]) == x;
  }

  // ----- Little-endian integers

  function Pow256(n: nat): (p: int)
    ensures p > 0
  {
    if n == 0 then 1 else 256 * Pow256(n - 1)
  }

  function LittleEndian(v: nat, width: nat): (r: seq<byte>)
    ensures |r| == width
  {
    if width == 0 then [] else [v % 256] + LittleEndian(v / 256, width - 1)
  }

  function Unsigned(bs: seq<byte>): nat {
    if bs == [] then 0 else bs[0] + 256 * Unsigned(bs[1..])
  }

  lemma {:induction false} UnsignedOfLittleEndian(v: nat, width: nat)
    requires v < Pow256(width)
    ensures Unsigned(LittleEndian(v, width)) == v
  {
    if width != 0 {
      UnsignedOfLittleEndian(v / 256, width - 1);
      assert LittleEndian(v, width)[1..] == LittleEndian(v / 256, width - 1);
    }
  }

  /** The bytes of a signed integer of `width` bytes. */
  function Encode(v: int, width: nat): (r: seq<byte>)
    ensures |r| == width
  {
    LittleEndian(v % Pow256(width), width)
  }

  function Signed(bs: seq<byte>): int {
    var u := Unsigned(bs);
    if 2 * u < Pow256(|bs|) then u else u - Pow256(|bs|)
  }

  /** Every integer that fits a signed field of `width` bytes is read back as written. */
  lemma SignedOfEncode(v: int, width: nat)
    requires -Pow256(width) <= 2 * v < Pow256(width)
    ensures Signed(Encode(v, width)) == v
  {
    var p := Pow256(width);
    if v < 0 {
      ModOfNegative(v, p);
    } else {
      ModOfSmall(v, p);
    }
    UnsignedOfLittleEndian(v % p, width);
  }

  lemma ModOfSmall(v: nat, p: int)
    requires v < p
    ensures v % p == v
  {}

  lemma ModOfNegative(v: int, p: int)
    requires -p <= v < 0
    ensures v % p == v + p
  {
    assert v == p * (v / p) + v % p;
    assert v / p == -1;
  }

  lemma PowersOf256()
    ensures Pow256(4) == 0x1_0000_0000
    ensures Pow256(8) == 0x1_0000_0000_0000_0000
  {
    assert Pow256(2) == 65536;
    assert Pow256(4) == 65536 * Pow256(2);
    assert Pow256(6) == 65536 * Pow256(4);
    assert Pow256(8) == 65536 * Pow256(6);
  }

  // ----- The layout of an integer

  function At(bs: seq<byte>, k: nat): nat
    requires k < |bs|
  {
    bs[k]
  }

  /** Four bytes that stand for `v` in little-endian two's complement, the lowest first. */
  predicate Holds32(bs: seq<byte>, at: nat, v: int) {
    && at + 4 <= |bs|
    && v == At(bs, at) + 0x100 * At(bs, at + 1) + 0x1_0000 * At(bs, at + 2) + 0x100_0000 * At(bs, at + 3)
            - (if At(bs, at + 3) >= 0x80 then 0x1_0000_0000 else 0)
  }

  /** Eight such bytes. */
  predicate Holds64(bs: seq<byte>, at: nat, v: int) {
    && at + 8 <= |bs|
    && v == At(bs, at) + 0x100 * At(bs, at + 1) + 0x1_0000 * At(bs, at + 2) + 0x100_0000 * At(bs, at + 3)
            + 0x1_0000_0000 * At(bs, at + 4) + 0x100_0000_0000 * At(bs, at + 5)
            + 0x1_0000_0000_0000 * At(bs, at + 6) + 0x100_0000_0000_0000 * At(bs, at + 7)
            - (if At(bs, at + 7) >= 0x80 then 0x1_0000_0000_0000_0000 else 0)
  }

  lemma UnsignedOfFour(bs: seq<byte>)
    requires |bs| >= 4
    ensures Unsigned(bs) == At(bs, 0) + 0x100 * At(bs, 1) + 0x1_0000 * At(bs, 2) + 0x100_0000 * At(bs, 3)
                            + 0x1_0000_0000 * Unsigned(bs[4..])
  {
    assert Unsigned(bs) == bs[0] + 256 * Unsigned(bs[1..]);
    assert Unsigned(bs[1..]) == bs[1] + 256 * Unsigned(bs[2..]) by {
      assert bs[1..][1..] == bs[2..];
    }
    assert Unsigned(bs[2..]) == bs[2] + 256 * Unsigned(bs[3..]) by {
      assert bs[2..][1..] == bs[3..];
    }
    assert Unsigned(bs[3..]) == bs[3] + 256 * Unsigned(bs[4..]) by {
      assert bs[3..][1..] == bs[4..];
    }
  }

  lemma SignedOfFour(bs: seq<byte>)
    requires |bs| == 4
    ensures Holds32(bs, 0, Signed(bs))
  {
    UnsignedOfFour(bs);
    PowersOf256();
    assert Unsigned(bs[4..]) == 0;
  }

  lemma SignedOfEight(bs: seq<byte>)
    requires |bs| == 8
    ensures Holds64(bs, 0, Signed(bs))
  {
    UnsignedOfFour(bs);
    UnsignedOfFour(bs[4..]);
    PowersOf256();
    assert bs[4..][4..] == [];
    assert Unsigned(bs[4..][4..]) == 0;
  }

  /** What `Encode` writes. */
  lemma EncodedInFour(bs: seq<byte>, at: nat, v: int32)
    requires at + 4 <= |bs| && bs[at..at + 4] == Encode(v, 4)
    ensures Holds32(bs, at, v)
  {
    PowersOf256();
    SignedOfEncode(v, 4);
    SignedOfFour(bs[at..at + 4]);
  }

  lemma EncodedInEight(bs: seq<byte>, at: nat, v: int64)
    requires at + 8 <= |bs| && bs[at..at + 8] == Encode(v, 8)
    ensures Holds64(bs, at, v)
  {
    PowersOf256();
    SignedOfEncode(v, 8);
    SignedOfEight(bs[at..at + 8]);
  }
}
