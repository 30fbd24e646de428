/** Byte strings read as big-endian numbers. */
module Bytes {
  import opened U256

  type Byte = n: nat | n < 256

  type Bytes32 = s: seq<Byte> | |s| == 32 witness seq(32, _ => 0)

  type Address = s: seq<Byte> | |s| == 20 witness seq(20, _ => 0)

  function Power(n: nat): (r: nat)
    ensures r > 0
  {
    if n == 0 then 1 else 256 * Power(n - 1)
  }

  /** `from_be_slice`. */
  function Number(bytes: seq<Byte>): nat {
    if bytes == [] then 0 else 256 * Number(bytes[..|bytes| - 1]) + bytes[|bytes| - 1]
  }

  function BigEndian(n: nat, length: nat): (r: seq<Byte>)
    ensures |r| == length
  {
    if length == 0 then [] else BigEndian(n / 256, length - 1) + [n % 256]
  }

  lemma {:induction false} NumberBound(bytes: seq<Byte>)
    ensures Number(bytes) < Power(|bytes|)
  {
    if bytes != [] {
      NumberBound(bytes[..|bytes| - 1]);
    }
  }

  lemma {:induction false} NumberOfBigEndian(n: nat, length: nat)
    requires n < Power(length)
    ensures Number(BigEndian(n, length)) == n
  {
    if length > 0 {
      NumberOfBigEndian(n / 256, length - 1);
      assert BigEndian(n, length)[..length - 1] == BigEndian(n / 256, length - 1);
    }
  }

  lemma {:induction false} BigEndianOfNumber(bytes: seq<Byte>)
    ensures BigEndian(Number(bytes), |bytes|) == bytes
  {
    if bytes != [] {
      BigEndianOfNumber(bytes[..|bytes| - 1]);
    }
  }

  /** Comparing 32-byte words as numbers is comparing their bytes. */
  lemma SameNumberSameBytes(a: Bytes32, b: Bytes32)
    ensures Number(a) == Number(b) <==> a == b
  {
    BigEndianOfNumber(a);
    BigEndianOfNumber(b);
  }

  lemma PowerOf32()
    ensures Power(32) == TWO_256
  {
    assert Power(8) == 0x1_0000000000000000;
    assert Power(16) == 0x1_0000000000000000_0000000000000000;
    assert Power(24) == 0x1_0000000000000000_0000000000000000_0000000000000000;
  }
}
