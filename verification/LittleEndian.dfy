/** Fixed-width unsigned integers and their little-endian byte form. */
module LittleEndian {

  type Byte = x: int | 0 <= x < 0x100
  type U16 = x: int | 0 <= x < 0x1_0000
  type U32 = x: int | 0 <= x < 0x1_0000_0000
  type U64 = x: int | 0 <= x < 0x1_0000_0000_0000_0000

  /** The number of values `width` bytes can hold. */
  function Bound(width: nat): (b: nat)
    ensures b >= 1
  {
    if width == 0 then 1 else 0x100 * Bound(width - 1)
  }

  lemma BoundValues()
    ensures Bound(2) == 0x1_0000
    ensures Bound(4) == 0x1_0000_0000
    ensures Bound(8) == 0x1_0000_0000_0000_0000
  {
    assert Bound(1) == 0x100;
    assert Bound(3) == 0x100 * Bound(2);
    assert Bound(5) == 0x100 * Bound(4);
    assert Bound(6) == 0x100 * Bound(5);
    assert Bound(7) == 0x100 * Bound(6);
  }

  /** The `to_le_bytes` of an unsigned integer of `width` bytes. */
  function ToBytes(n: nat, width: nat): (bytes: seq<Byte>)
    requires n < Bound(width)
    ensures |bytes| == width
    decreases width, n
  {
    if width == 0 then [] else [n % 0x100] + ToBytes(n / 0x100, width - 1)
  }

  /** The `from_le_bytes` of a byte string. */
  function FromBytes(bytes: seq<Byte>): (n: nat)
    ensures n < Bound(|bytes|)
  {
    if bytes == [] then 0 else bytes[0] + 0x100 * FromBytes(bytes[1..])
  }

  lemma {:induction false} FromToBytes(n: nat, width: nat)
    requires n < Bound(width)
    ensures FromBytes(ToBytes(n, width)) == n
    decreases width, n
  {
    if width > 0 {
      FromToBytes(n / 0x100, width - 1);
      assert ToBytes(n, width)[1..] == ToBytes(n / 0x100, width - 1);
    }
  }

  lemma {:induction false} ToFromBytes(bytes: seq<Byte>)
    ensures ToBytes(FromBytes(bytes), |bytes|) == bytes
  {
    if bytes != [] {
      ToFromBytes(bytes[1..]);
      var n := FromBytes(bytes);
      assert n % 0x100 == bytes[0] && n / 0x100 == FromBytes(bytes[1..]);
    }
  }

  lemma Quotient(q: nat, b: nat, r: nat)
    requires b > 0 && r < b
    ensures (b * q + r) / b == q
  {
    var d, m := (b * q + r) / b, (b * q + r) % b;
    assert b * (q - d) == m - r;
    Grows(b, q - d);
  }

  /** A multiple of `b` other than 0 is at least `b` away from 0. */
  lemma Grows(b: nat, k: int)
    ensures k >= 1 ==> b * k >= b
    ensures k <= -1 ==> b * k + b <= 0
  {
  }

  lemma DivideTwice(n: nat, b: nat)
    requires b > 0
    ensures n / 0x100 / b == n / (0x100 * b)
  {
    var q, r := n / (0x100 * b), n % (0x100 * b);
    assert n == 0x100 * (b * q) + r;
    assert n / 0x100 == b * q + r / 0x100;
    Quotient(q, b, r / 0x100);
  }

  /** Bytes are written least significant first: byte `k` is the `k`-th digit in base 256. */
  lemma {:induction false} ByteAt(n: nat, width: nat, k: nat)
    requires n < Bound(width) && k < width
    ensures ToBytes(n, width)[k] == n / Bound(k) % 0x100
    decreases width
  {
    if k > 0 {
      ByteAt(n / 0x100, width - 1, k - 1);
      DivideTwice(n, Bound(k - 1));
    }
  }

  function Le16(n: U16): (bytes: seq<Byte>)
    ensures |bytes| == 2
  {
    BoundValues();
    ToBytes(n, 2)
  }

  function Le32(n: U32): (bytes: seq<Byte>)
    ensures |bytes| == 4
  {
    BoundValues();
    ToBytes(n, 4)
  }

  function Le64(n: U64): (bytes: seq<Byte>)
    ensures |bytes| == 8
  {
    BoundValues();
    ToBytes(n, 8)
  }

  function U16At(bytes: seq<Byte>, offset: nat): U16
    requires offset + 2 <= |bytes|
  {
    BoundValues();
    FromBytes(bytes[offset..offset + 2])
  }

  function U32At(bytes: seq<Byte>, offset: nat): U32
    requires offset + 4 <= |bytes|
  {
    BoundValues();
    FromBytes(bytes[offset..offset + 4])
  }

  function U64At(bytes: seq<Byte>, offset: nat): U64
    requires offset + 8 <= |bytes|
  {
    BoundValues();
    FromBytes(bytes[offset..offset + 8])
  }

  /** Reading a field and writing it again gives the bytes it was read from. */
  lemma FieldBytes(bytes: seq<Byte>, offset: nat)
    ensures offset + 2 <= |bytes| ==> Le16(U16At(bytes, offset)) == bytes[offset..offset + 2]
    ensures offset + 4 <= |bytes| ==> Le32(U32At(bytes, offset)) == bytes[offset..offset + 4]
    ensures offset + 8 <= |bytes| ==> Le64(U64At(bytes, offset)) == bytes[offset..offset + 8]
  {
    if offset + 2 <= |bytes| { ToFromBytes(bytes[offset..offset + 2]); }
    if offset + 4 <= |bytes| { ToFromBytes(bytes[offset..offset + 4]); }
    if offset + 8 <= |bytes| { ToFromBytes(bytes[offset..offset + 8]); }
  }

  lemma Field16(bytes: seq<Byte>, offset: nat, n: U16)
    requires offset + 2 <= |bytes| && bytes[offset..offset + 2] == Le16(n)
    ensures U16At(bytes, offset) == n
  {
    BoundValues();
    FromToBytes(n, 2);
  }

  lemma Field32(bytes: seq<Byte>, offset: nat, n: U32)
    requires offset + 4 <= |bytes| && bytes[offset..offset + 4] == Le32(n)
    ensures U32At(bytes, offset) == n
  {
    BoundValues();
    FromToBytes(n, 4);
  }

  lemma Field64(bytes: seq<Byte>, offset: nat, n: U64)
    requires offset + 8 <= |bytes| && bytes[offset..offset + 8] == Le64(n)
    ensures U64At(bytes, offset) == n
  {
    BoundValues();
    FromToBytes(n, 8);
  }
}
