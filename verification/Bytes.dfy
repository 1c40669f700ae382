// Unsigned bytes: conversion to and from integers, and byte buffers made of equal blocks.
module Bytes {
  import Int64

  type byte = bv8

  // One bit of a byte.
  function BitMask(bit: bool, mask: byte): byte {
    if bit then mask else 0
  }

  predicate Odd(n: nat) {
    n % 2 == 1
  }

  // astype(uint8) of an integer, modulo 256.
  function ToByte(n: nat): byte {
    BitMask(Odd(n), 1) | BitMask(Odd(n / 2), 2) | BitMask(Odd(n / 4), 4) | BitMask(Odd(n / 8), 8)
    | BitMask(Odd(n / 16), 16) | BitMask(Odd(n / 32), 32) | BitMask(Odd(n / 64), 64) | BitMask(Odd(n / 128), 128)
  }

  function Weight(b: byte, mask: byte, weight: nat): nat {
    if b & mask != 0 then weight else 0
  }

  function FromByte(b: byte): nat {
    Weight(b, 1, 1) + Weight(b, 2, 2) + Weight(b, 4, 4) + Weight(b, 8, 8)
    + Weight(b, 16, 16) + Weight(b, 32, 32) + Weight(b, 64, 64) + Weight(b, 128, 128)
  }

  lemma BitsOfUnion(b0: bool, b1: bool, b2: bool, b3: bool, b4: bool, b5: bool, b6: bool, b7: bool)
    ensures var b := BitMask(b0, 1) | BitMask(b1, 2) | BitMask(b2, 4) | BitMask(b3, 8)
                   | BitMask(b4, 16) | BitMask(b5, 32) | BitMask(b6, 64) | BitMask(b7, 128);
      && (b & 1 != 0 <==> b0) && (b & 2 != 0 <==> b1) && (b & 4 != 0 <==> b2) && (b & 8 != 0 <==> b3)
      && (b & 16 != 0 <==> b4) && (b & 32 != 0 <==> b5) && (b & 64 != 0 <==> b6) && (b & 128 != 0 <==> b7)
  {
  }

  function Bit(n: nat): nat {
    if Odd(n) then 1 else 0
  }

  lemma BinaryExpansion(n: nat)
    requires n < 256
    ensures n == Bit(n) + 2 * Bit(n / 2) + 4 * Bit(n / 4) + 8 * Bit(n / 8)
               + 16 * Bit(n / 16) + 32 * Bit(n / 32) + 64 * Bit(n / 64) + 128 * Bit(n / 128)
  {
    Halve(n, 1);
    Halve(n, 2);
    Halve(n, 4);
    Halve(n, 8);
    Halve(n, 16);
    Halve(n, 32);
    Halve(n, 64);
    assert n / 1 == n && Bit(n / 128) == n / 128;
  }

  lemma Halve(n: nat, k: nat)
    requires k > 0
    ensures n / k == 2 * (n / (2 * k)) + Bit(n / k)
  {
    var q := n / k / 2;
    assert n / k == 2 * q + Bit(n / k);
    assert n == k * (n / k) + n % k;
    assert n == (2 * k) * q + (k * Bit(n / k) + n % k);
    QuotientIs(n, 2 * k, q, k * Bit(n / k) + n % k);
  }

  lemma QuotientIs(n: nat, d: nat, q: nat, r: nat)
    requires n == d * q + r && r < d
    ensures n / d == q
  {
    assert n == d * (n / d) + n % d;
    if n / d < q { Int64.MulMono(d, n / d + 1, q); } else if n / d > q { Int64.MulMono(d, q + 1, n / d); }
  }

  /** An integer below 256 survives conversion to a byte and back. */
  lemma ByteRoundTrip(n: nat)
    requires n < 256
    ensures FromByte(ToByte(n)) == n
  {
    BitsOfUnion(Odd(n), Odd(n / 2), Odd(n / 4), Odd(n / 8), Odd(n / 16), Odd(n / 32), Odd(n / 64), Odd(n / 128));
    BinaryExpansion(n);
  }

  /** The conversions are those of the built-in byte: the value of its bits. */
  lemma ByteValues(b: byte, n: nat)
    requires n < 256
    ensures FromByte(b) == b as nat
    ensures ToByte(n) == n as byte
  {
  }

  // A number below 64 uses only the low six bits.
  lemma SixBits(n: nat)
    requires n < 64
    ensures ToByte(n) & 0x3F == ToByte(n)
  {
    assert n / 64 == 0 && n / 128 == 0;
  }

  //////////////////////////////////////////////////////////////////////////////
  // Buffers of equal blocks
  //////////////////////////////////////////////////////////////////////////////

  function Flatten(blocks: seq<seq<byte>>): seq<byte> {
    if blocks == [] then [] else Flatten(blocks[..|blocks| - 1]) + blocks[|blocks| - 1]
  }

  function BlockOffset(i: nat, size: nat): nat {
    i * size
  }

  predicate HoldsAt(data: seq<byte>, offset: nat, part: seq<byte>) {
    offset + |part| <= |data| && data[offset..offset + |part|] == part
  }

  lemma HoldsAtKept(front: seq<byte>, back: seq<byte>, offset: nat, part: seq<byte>)
    requires HoldsAt(front, offset, part)
    ensures HoldsAt(front + back, offset, part)
  {
    assert (front + back)[offset..offset + |part|] == front[offset..offset + |part|];
  }

  /** Block i of a buffer of equal blocks is found again at offset i * size. */
  lemma {:induction false} BlockOfBuffer(blocks: seq<seq<byte>>, size: nat, i: nat)
    requires forall k :: 0 <= k < |blocks| ==> |blocks[k]| == size
    ensures |Flatten(blocks)| == BlockOffset(|blocks|, size)
    ensures i < |blocks| ==> HoldsAt(Flatten(blocks), BlockOffset(i, size), blocks[i])
  {
    if blocks != [] {
      var n := |blocks| - 1;
      var front := blocks[..n];
      BlockOfBuffer(front, size, i);
      assert (n + 1) * size == n * size + size;
      if i < n { HoldsAtKept(Flatten(front), blocks[n], BlockOffset(i, size), blocks[i]); }
    }
  }
}
