/**
 Bytes and fixed-width unsigned integers, with the big-endian and little-endian
 byte orders the codecs and the audit log use.
 */
module Bytes {
  type Byte = bv8
  type U16 = x: int | 0 <= x < 0x1_0000
  type U32 = x: int | 0 <= x < 0x1_0000_0000
  type U64 = x: int | 0 <= x < 0x1_0000_0000_0000_0000

  /** The value a 64-bit counter holds after wrapping. */
  function Wrap64(x: nat): U64 {
    x % 0x1_0000_0000_0000_0000
  }

  /** The value of the byte `b`. */
  function ByteVal(b: Byte): (v: int)
    ensures 0 <= v < 256
  {
    b as int
  }

  lemma ByteDouble(b: Byte)
    requires ByteVal(b) < 128
    ensures ByteVal(2 * b) == 2 * ByteVal(b)
    ensures ByteVal(2 * b + 1) == 2 * ByteVal(b) + 1
  {
  }

  lemma ByteValInjective(a: Byte, b: Byte)
    requires ByteVal(a) == ByteVal(b)
    ensures a == b
  {
  }

  /** The byte with value `x`, bit by bit: converting a number to a bit vector is costly to reason about. */
  function ByteOf(x: int): (b: Byte)
    requires 0 <= x < 256
    ensures ByteVal(b) == x
  {
    if x == 0 then 0
    else
      var half := ByteOf(x / 2);
      ByteDouble(half);
      if x % 2 == 0 then 2 * half else 2 * half + 1
  }

  lemma ByteOfVal(b: Byte)
    ensures ByteOf(ByteVal(b)) == b
  {
    hide ByteVal;
    ByteValInjective(ByteOf(ByteVal(b)), b);
  }

  function Pow256(n: nat): (r: nat)
    ensures r >= 1
  {
    if n == 0 then 1 else 256 * Pow256(n - 1)
  }

  /** The low `n` bytes of `x`, most significant first. */
  function ToBe(n: nat, x: nat): (r: seq<Byte>)
    ensures |r| == n
  {
    if n == 0 then [] else ToBe(n - 1, x / 256) + [ByteOf(x % 256)]
  }

  function FromBe(s: seq<Byte>): nat {
    if s == [] then 0 else FromBe(s[..|s| - 1]) * 256 + ByteVal(s[|s| - 1])
  }

  /** The low `n` bytes of `x`, least significant first. */
  function ToLe(n: nat, x: nat): (r: seq<Byte>)
    ensures |r| == n
  {
    if n == 0 then [] else [ByteOf(x % 256)] + ToLe(n - 1, x / 256)
  }

  function FromLe(s: seq<Byte>): nat {
    if s == [] then 0 else ByteVal(s[0]) + 256 * FromLe(s[1..])
  }

  lemma {:induction false} BeRoundTrip(n: nat, x: nat)
    requires x < Pow256(n)
    ensures FromBe(ToBe(n, x)) == x
  {
    if n == 0 {
    } else {
      var q := x / 256;
      assert q < Pow256(n - 1);
      BeRoundTrip(n - 1, q);
      assert ToBe(n, x)[..n - 1] == ToBe(n - 1, q);
      assert FromBe(ToBe(n, x)) == q * 256 + x % 256;
    }
  }

  lemma BeAppend(n: nat, q: nat, last: Byte)
    ensures ToBe(n + 1, q * 256 + ByteVal(last)) == ToBe(n, q) + [last]
  {
    ByteOfVal(last);
    DivModByte(q, ByteVal(last));
  }

  lemma DivModByte(q: nat, r: int)
    requires 0 <= r < 256
    ensures (q * 256 + r) / 256 == q && (q * 256 + r) % 256 == r
  {
  }

  lemma {:induction false} BeSurjective(s: seq<Byte>)
    ensures FromBe(s) < Pow256(|s|)
    ensures ToBe(|s|, FromBe(s)) == s
  {
    if s == [] {
    } else {
      var front, last := s[..|s| - 1], s[|s| - 1];
      BeSurjective(front);
      BeAppend(|front|, FromBe(front), last);
    }
  }

  lemma {:induction false} LeRoundTrip(n: nat, x: nat)
    requires x < Pow256(n)
    ensures FromLe(ToLe(n, x)) == x
  {
    if n == 0 {
    } else {
      var q := x / 256;
      assert q < Pow256(n - 1);
      LeRoundTrip(n - 1, q);
      assert ToLe(n, x)[1..] == ToLe(n - 1, q);
      assert FromLe(ToLe(n, x)) == x % 256 + 256 * q;
    }
  }

  /** The little-endian bytes are the big-endian ones in reverse. */
  lemma {:induction false} LeReversesBe(n: nat, x: nat, i: nat)
    requires i < n
    ensures ToLe(n, x)[i] == ToBe(n, x)[n - 1 - i]
  {
    hide ByteOf;
    if i == 0 {
    } else {
      LeReversesBe(n - 1, x / 256, i - 1);
    }
  }

  lemma LeInjective(n: nat, x: nat, y: nat)
    requires x < Pow256(n) && y < Pow256(n)
    requires ToLe(n, x) == ToLe(n, y)
    ensures x == y
  {
    LeRoundTrip(n, x);
    LeRoundTrip(n, y);
  }

  lemma PowWidths()
    ensures Pow256(2) == 0x1_0000
    ensures Pow256(4) == 0x1_0000_0000
    ensures Pow256(8) == 0x1_0000_0000_0000_0000
  {
    assert Pow256(4) == 256 * 256 * Pow256(2);
    assert Pow256(6) == 256 * 256 * Pow256(4);
    assert Pow256(8) == 256 * 256 * Pow256(6);
  }

  /** The two-byte reading `u16::from_be_bytes`. */
  lemma BePair(hi: Byte, lo: Byte)
    ensures FromBe([hi, lo]) == ByteVal(hi) * 256 + ByteVal(lo)
    ensures FromBe([hi, lo]) < 0x1_0000
    ensures ToBe(2, FromBe([hi, lo])) == [hi, lo]
  {
    BeSurjective([hi, lo]);
    PowWidths();
    assert [hi, lo][..1] == [hi];
    assert [hi][..0] == [];
  }

  /** The four-byte reading `u32::from_be_bytes`. */
  lemma BeQuad(a: Byte, b: Byte, c: Byte, d: Byte)
    ensures FromBe([a, b, c, d]) == ByteVal(a) * 0x100_0000 + ByteVal(b) * 0x1_0000 + ByteVal(c) * 0x100 + ByteVal(d)
  {
    BePair(a, b);
    assert [a, b, c, d][..3] == [a, b, c];
    assert [a, b, c][..2] == [a, b];
  }

  function U16FromBe(s: seq<Byte>): U16
    requires |s| == 2
  {
    BeSurjective(s);
    PowWidths();
    FromBe(s)
  }

  function U32FromBe(s: seq<Byte>): U32
    requires |s| == 4
  {
    BeSurjective(s);
    PowWidths();
    FromBe(s)
  }

  lemma U16RoundTrip(x: U16, s: seq<Byte>)
    requires |s| == 2
    ensures U16FromBe(ToBe(2, x)) == x
    ensures ToBe(2, U16FromBe(s)) == s
  {
    PowWidths();
    BeRoundTrip(2, x);
    BeSurjective(s);
  }

  lemma U32RoundTrip(x: U32, s: seq<Byte>)
    requires |s| == 4
    ensures U32FromBe(ToBe(4, x)) == x
    ensures ToBe(4, U32FromBe(s)) == s
  {
    PowWidths();
    BeRoundTrip(4, x);
    BeSurjective(s);
  }
}
