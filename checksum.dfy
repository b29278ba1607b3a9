/** The frame checksum: the identifier plus every payload byte, kept to its
    low 8 bits (src/MKSServoCAN.cpp, computeCRC). */
module Checksum {
  import opened Bytes

  /** The arithmetic sum of a byte string. */
  function Sum(s: seq<byte>): nat
  {
    if s == [] then 0 else Sum(s[..|s| - 1]) + s[|s| - 1]
  }

  /** The checksum of `data` sent to `id`. */
  function Crc(id: u32, data: seq<byte>): byte
  {
    (id + Sum(data)) % 0x100
  }

  /** computeCRC as written: `sum` is a `uint32_t` that starts at `id`,
      accumulates the bytes with 32-bit wrap-around, and is masked with
      0xFF at the end.  The wrap-around never changes the low byte. */
  method ComputeCrc(id: u32, data: seq<byte>) returns (crc: byte)
    ensures crc == Crc(id, data)
  {
    var sum: u32 := id;
    for i := 0 to |data|
      invariant sum == (id + Sum(data[..i])) % TWO_32
    {
      assert data[..i + 1][..i] == data[..i];
      WrapAdd(id + Sum(data[..i]), data[i]);
      sum := (sum + data[i]) % TWO_32;
    }
    assert data[..|data|] == data;
    LowByteOfWrapped(id + Sum(data));
    crc := sum % 0x100;
  }

  lemma WrapAdd(x: int, b: int)
    ensures (x % TWO_32 + b) % TWO_32 == (x + b) % TWO_32
  {
    assert x == (x / TWO_32) * TWO_32 + x % TWO_32;
  }

  lemma LowByteOfWrapped(x: int)
    ensures (x % TWO_32) % 0x100 == x % 0x100
  {
    assert x == (x / TWO_32) * TWO_32 + x % TWO_32;
    assert TWO_32 == 0x100_0000 * 0x100;
  }

  /** Appending one byte adds it to the checksum, modulo 256. */
  lemma CrcAppend(id: u32, p: seq<byte>, b: byte)
    ensures Crc(id, p + [b]) == (Crc(id, p) + b) % 0x100
  {
    assert (p + [b])[..|p|] == p;
  }

  /** Only the low 8 bits of the identifier take part: two identifiers give
      the same checksum for a payload exactly when their low bytes agree. */
  lemma CrcDependsOnLowIdByte(id1: u32, id2: u32, p: seq<byte>)
    ensures Crc(id1, p) == Crc(id2, p) <==> id1 % 0x100 == id2 % 0x100
  {
    var s := Sum(p);
    LowByteOfSum(id1, s);
    LowByteOfSum(id2, s);
  }

  lemma LowByteOfSum(x: nat, y: nat)
    ensures (x + y) % 0x100 == (x % 0x100 + y % 0x100) % 0x100
  {
    assert x + y == (x / 0x100 + y / 0x100) * 0x100 + (x % 0x100 + y % 0x100);
  }

  /** Replacing one byte changes the sum by the difference of the two bytes. */
  lemma {:induction false} SumUpdate(s: seq<byte>, k: nat, v: byte)
    requires k < |s|
    ensures Sum(s[k := v]) == Sum(s) - s[k] + v
  {
    var n := |s| - 1;
    if k == n {
      assert s[k := v][..n] == s[..n];
    } else {
      assert s[k := v][..n] == s[..n][k := v];
      SumUpdate(s[..n], k, v);
    }
  }

  /** The checksum detects every single corrupted byte: the sum changes by a
      non-zero amount smaller than 256 in magnitude. */
  lemma CrcDetectsSingleByteChange(id: u32, p: seq<byte>, k: nat, v: byte)
    requires k < |p| && v != p[k]
    ensures Crc(id, p[k := v]) != Crc(id, p)
  {
    SumUpdate(p, k, v);
    var a, d := id + Sum(p), v - p[k];
    assert a == (a / 0x100) * 0x100 + a % 0x100;
    assert a + d == ((a + d) / 0x100) * 0x100 + (a + d) % 0x100;
  }

  /** The two examples of the protocol description: reading the encoder
      carry from motor 1, and setting motor 1's current to 500 mA. */
  lemma CrcExamples()
    ensures Crc(0x01, [0x30]) == 0x31
    ensures Crc(0x01, [0x83, 0x01, 0xF4]) == 0x79
  {
    assert [0x83, 0x01, 0xF4][..2] == [0x83, 0x01];
    assert [0x83, 0x01][..1] == [0x83];
    assert [0x30][..0] == [];
  }
}
