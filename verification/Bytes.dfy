/** Byte strings and the fixed-width big-endian integers inside them. */
module Bytes {
  import opened Numeric

  newtype byte = b: int | 0 <= b < 256

  type Bytes = seq<byte>

  function Pow256(n: nat): (p: nat)
    ensures p > 0
  {
    if n == 0 then 1 else 256 * Pow256(n - 1)
  }

  /** The `n` bytes of `x`, most significant first. */
  function BigEndian(x: nat, n: nat): (b: Bytes)
    ensures |b| == n
  {
    if n == 0 then [] else BigEndian(x / 256, n - 1) + [(x % 256) as byte]
  }

  function FromBigEndian(b: Bytes): nat {
    if b == [] then 0 else 256 * FromBigEndian(b[..|b| - 1]) + b[|b| - 1] as nat
  }

  lemma FromBigEndianPush(front: Bytes, last: byte)
    ensures FromBigEndian(front + [last]) == 256 * FromBigEndian(front) + last as nat
  {
    assert (front + [last])[..|front|] == front;
  }

  /** Taking off the last byte. */
  lemma LastByte(x: nat, n: nat) returns (q: nat, r: byte)
    requires n > 0
    ensures x == 256 * q + r as nat
    ensures BigEndian(x, n) == BigEndian(q, n - 1) + [r]
    ensures x < Pow256(n) ==> q < Pow256(n - 1)
  {
    q, r := x / 256, (x % 256) as byte;
  }

  lemma {:induction false} BigEndianRoundTrip(x: nat, n: nat)
    requires x < Pow256(n)
    ensures FromBigEndian(BigEndian(x, n)) == x
  {
    if n > 0 {
      var q, r := LastByte(x, n);
      BigEndianRoundTrip(q, n - 1);
      FromBigEndianPush(BigEndian(q, n - 1), r);
    }
  }

  lemma BigEndianInjective(x: nat, y: nat, n: nat)
    requires x < Pow256(n) && y < Pow256(n)
    ensures BigEndian(x, n) == BigEndian(y, n) <==> x == y
  {
    BigEndianRoundTrip(x, n);
    BigEndianRoundTrip(y, n);
  }

  lemma DivTwice(x: nat, p: nat)
    requires 0 < p
    ensures x / 256 / p == x / (256 * p)
  {
    var q := x / 256 / p;
    assert p * q <= x / 256 < p * q + p;
    assert 256 * (x / 256) <= x < 256 * (x / 256) + 256;
    assert 256 * p * q <= x < 256 * p * q + 256 * p;
    DivUnique(x, 256 * p, q);
  }

  /** Byte `i` is the digit of weight `256^(n-1-i)`. */
  lemma {:induction false} BigEndianDigit(x: nat, n: nat, i: nat)
    requires i < n
    ensures BigEndian(x, n)[i] as nat == x / Pow256(n - 1 - i) % 256
  {
    if i < n - 1 {
      BigEndianDigit(x / 256, n - 1, i);
      DivTwice(x, Pow256(n - 2 - i));
    }
  }

  /** `to_be_bytes` of a signed value: two's complement. */
  function TwosComplement(x: int, n: nat): Bytes
    requires 0 <= x + Pow256(n)
  {
    BigEndian(if x < 0 then x + Pow256(n) else x, n)
  }

  /** Over the range of a signed type no two values share an encoding. */
  lemma TwosComplementInjective(x: int, y: int, n: nat)
    requires 0 <= 2 * x + Pow256(n) < 2 * Pow256(n) && 0 <= 2 * y + Pow256(n) < 2 * Pow256(n)
    ensures TwosComplement(x, n) == TwosComplement(y, n) <==> x == y
  {
    BigEndianInjective(if x < 0 then x + Pow256(n) else x, if y < 0 then y + Pow256(n) else y, n);
  }

  lemma Width8()
    ensures Pow256(8) == 0x1_0000_0000_0000_0000
  {
    assert Pow256(4) == 0x1_0000_0000;
  }

  lemma Width4()
    ensures Pow256(4) == 0x1_0000_0000
  {
    assert Pow256(2) == 0x1_0000;
  }
}
