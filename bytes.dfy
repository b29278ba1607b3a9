/** The fixed-width integers of the codec and the big-endian and
    two's-complement conversions between them.

    C++ integers are modelled as ranges of Dafny's unbounded `int`.  A right
    shift by 8k bits is a division by 2^(8k) (Dafny's division by a positive
    constant rounds down, exactly like an arithmetic shift of a negative
    `int32_t`), and a cast to `uint8_t` keeps the value modulo 256. */
module Bytes {

  type byte = x: int | 0 <= x < 0x100
  type u16 = x: int | 0 <= x < 0x1_0000
  type u32 = x: int | 0 <= x < 0x1_0000_0000
  type i16 = x: int | -0x8000 <= x < 0x8000
  type i32 = x: int | -0x8000_0000 <= x < 0x8000_0000
  /** The 48-bit signed encoder counts, held in an `int64_t`. */
  type i48 = x: int | -0x8000_0000_0000 <= x < 0x8000_0000_0000

  const TWO_16: int := 0x1_0000
  const TWO_24: int := 0x100_0000
  const TWO_32: int := 0x1_0000_0000
  const TWO_47: int := 0x8000_0000_0000
  const TWO_48: int := 0x1_0000_0000_0000

  /** `uint8_t(x)`: the byte congruent to `x` modulo 256, so for a negative
      `x` the low byte of its two's-complement representation. */
  function Lo8(x: int): (b: byte)
    ensures (x - b) % 0x100 == 0
  {
    x % 0x100
  }

  function Pow2(k: nat): (p: nat)
    ensures p >= 1
  {
    if k == 0 then 1 else 2 * Pow2(k - 1)
  }

  /** Bit `k` of a byte, `(b >> k) & 1`. */
  function Bit(b: byte, k: nat): bool
    requires k < 8
  {
    (b / Pow2(k)) % 2 == 1
  }

  function Pow256(n: nat): (p: nat)
    ensures p >= 1
  {
    if n == 0 then 1 else 0x100 * Pow256(n - 1)
  }

  lemma Pow256Widths()
    ensures Pow256(2) == TWO_16 && Pow256(3) == TWO_24 && Pow256(4) == TWO_32 && Pow256(6) == TWO_48
  {
    assert Pow256(1) == 0x100;
    assert Pow256(2) == TWO_16;
    assert Pow256(3) == TWO_24;
    assert Pow256(4) == TWO_32;
    assert Pow256(5) == 0x100_0000_0000;
  }

  /** The unsigned value of a byte string read big-endian (first byte most
      significant): the fold `v = (v << 8) | s[i]` over the string. */
  function FromBE(s: seq<byte>): (v: nat)
    ensures v < Pow256(|s|)
  {
    if s == [] then 0 else FromBE(s[..|s| - 1]) * 0x100 + s[|s| - 1]
  }

  /** The low `n` bytes of `x`, most significant first. */
  function ToBE(x: int, n: nat): (s: seq<byte>)
    ensures |s| == n
    decreases n
  {
    if n == 0 then [] else ToBE(x / 0x100, n - 1) + [Lo8(x)]
  }

  /** Splitting a value that fits in `n` bytes and folding the bytes back
      gives the value again. */
  lemma {:induction false} FromBEOfToBE(x: int, n: nat)
    requires 0 <= x < Pow256(n)
    ensures FromBE(ToBE(x, n)) == x
  {
    if n > 0 {
      var s := ToBE(x, n);
      assert s[..n - 1] == ToBE(x / 0x100, n - 1);
      assert x == (x / 0x100) * 0x100 + x % 0x100;
      assert Pow256(n) == 0x100 * Pow256(n - 1);
      assert x / 0x100 < Pow256(n - 1);
      FromBEOfToBE(x / 0x100, n - 1);
    }
  }

  /** Folding a byte string and splitting the value back into as many bytes
      gives the string again, so `FromBE` is one-to-one on strings of one
      length. */
  lemma {:induction false} ToBEOfFromBE(s: seq<byte>)
    ensures ToBE(FromBE(s), |s|) == s
  {
    if s != [] {
      var init := s[..|s| - 1];
      ToBEOfFromBE(init);
      assert FromBE(s) / 0x100 == FromBE(init);
      assert s == init + [s[|s| - 1]];
    }
  }

  /** The source splits fields with explicit shifts; these are the same bytes
      as `ToBE`. */
  lemma Split16(x: int)
    ensures [Lo8(x / 0x100), Lo8(x)] == ToBE(x, 2)
  {
    assert ToBE(x / 0x100, 1) == ToBE((x / 0x100) / 0x100, 0) + [Lo8(x / 0x100)];
  }

  lemma Split24(x: int)
    ensures [Lo8(x / 0x1_0000), Lo8(x / 0x100), Lo8(x)] == ToBE(x, 3)
  {
    Split16(x / 0x100);
    assert (x / 0x100) / 0x100 == x / 0x1_0000;
  }

  lemma Split32(x: int)
    ensures [Lo8(x / 0x100_0000), Lo8(x / 0x1_0000), Lo8(x / 0x100), Lo8(x)] == ToBE(x, 4)
  {
    Split24(x / 0x100);
    assert (x / 0x100) / 0x1_0000 == x / 0x100_0000;
    assert (x / 0x100) / 0x100 == x / 0x1_0000;
  }

  lemma FromBE2(a: byte, b: byte)
    ensures FromBE([a, b]) == a * 0x100 + b
  {
    assert [a, b][..1] == [a];
    assert [a][..0] == [];
  }

  lemma FromBE3(a: byte, b: byte, c: byte)
    ensures FromBE([a, b, c]) == a * 0x1_0000 + b * 0x100 + c
  {
    assert [a, b, c][..2] == [a, b];
    assert [a, b][..1] == [a];
    assert [a][..0] == [];
    assert FromBE([a]) == a;
    assert FromBE([a, b]) == a * 0x100 + b;
  }

  /** Three bytes of any `x`, negative ones included, fold back to the low 24
      bits of `x`. */
  lemma Low24(x: int)
    ensures FromBE(ToBE(x, 3)) == x % TWO_24
  {
    Split24(x);
    var s := ToBE(x, 3);
    var q1, r0 := x / 0x100, x % 0x100;
    var q2, r1 := q1 / 0x100, q1 % 0x100;
    var q3, r2 := q2 / 0x100, q2 % 0x100;
    assert q2 == x / 0x1_0000;
    assert s == [r2, r1, r0];
    FromBE3(r2, r1, r0);
    assert x == q3 * TWO_24 + (r2 * 0x1_0000 + r1 * 0x100 + r0);
  }

  /** The fields the commands split with shifts read back as the value
      (16 and 32 bits) or as its low 24 bits. */
  lemma Field16(x: u16)
    ensures FromBE([Lo8(x / 0x100), Lo8(x)]) == x
  {
    Split16(x);
    FromBEOfToBE(x, 2);
  }

  lemma Field24(x: int)
    ensures FromBE([Lo8(x / 0x1_0000), Lo8(x / 0x100), Lo8(x)]) == x % TWO_24
  {
    Split24(x);
    Low24(x);
  }

  lemma Field32(x: u32)
    ensures FromBE([Lo8(x / 0x100_0000), Lo8(x / 0x1_0000), Lo8(x / 0x100), Lo8(x)]) == x
  {
    Split32(x);
    FromBEOfToBE(x, 4);
  }

  /** The first byte of a big-endian string is its most significant one. */
  lemma {:induction false} FromBEHead(s: seq<byte>)
    requires |s| >= 1
    ensures FromBE(s) == s[0] * Pow256(|s| - 1) + FromBE(s[1..])
  {
    var n := |s|;
    if n == 1 {
      assert s[..0] == [] && s[1..] == [];
    } else {
      var init := s[..n - 1];
      FromBEHead(init);
      assert init[1..] == s[1..][..n - 2];
      assert Pow256(n - 1) == 0x100 * Pow256(n - 2);
      assert s[0] * Pow256(n - 1) == (s[0] * Pow256(n - 2)) * 0x100;
    }
  }

  /** Read as two's complement, a big-endian string is negative exactly
      when the top bit of its first byte is set. */
  lemma SignOfFirstByte(s: seq<byte>)
    requires |s| >= 1
    ensures Pow256(|s|) % 2 == 0
    ensures Signed(FromBE(s), Pow256(|s|)) < 0 <==> s[0] >= 0x80
  {
    var p := Pow256(|s| - 1);
    var m := Pow256(|s|);
    assert m == 0x100 * p;
    assert m == 2 * (0x80 * p) + 0;
    assert m % 2 == 0 && m / 2 == 0x80 * p;
    FromBEHead(s);
    HighByteBound(s[0], FromBE(s[1..]), p);
  }

  lemma HighByteBound(b: byte, rest: nat, p: nat)
    requires rest < p
    ensures b * p + rest >= 0x80 * p <==> b >= 0x80
  {
    if b >= 0x80 {
      MulMono(0x80, b, p);
    } else {
      MulMono(b + 1, 0x80, p);
    }
  }

  lemma MulMono(a: nat, b: nat, p: nat)
    requires a <= b
    ensures a * p <= b * p
  {
    assert b * p == a * p + (b - a) * p;
  }

  /** `int16_t(u)`, `int32_t(u)` and the 48-bit sign extension: the value of
      the same `log2(m)` bits read as two's complement, i.e. the one value in
      the signed range that is congruent to `u` modulo `m`. */
  function Signed(u: int, m: int): (v: int)
    requires m > 0 && m % 2 == 0 && 0 <= u < m
    ensures -(m / 2) <= v < m / 2
    ensures v == u || v == u - m
  {
    if u >= m / 2 then u - m else u
  }

  /** The bit pattern of a signed value of width `log2(m)`, as an unsigned
      number: what a cast to the unsigned type of that width gives. */
  function Unsigned(v: int, m: int): (u: int)
    requires m > 0 && m % 2 == 0 && -(m / 2) <= v < m / 2
    ensures 0 <= u < m
    ensures u == v || u == v + m
  {
    if v < 0 then v + m else v
  }

  /** Reading back a stored signed value gives the value itself. */
  lemma SignedOfUnsigned(v: int, m: int)
    requires m > 0 && m % 2 == 0 && -(m / 2) <= v < m / 2
    ensures Signed(Unsigned(v, m), m) == v
  {
  }
}
