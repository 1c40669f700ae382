// The Q4_K and Q5_K block formats of the oracles: eight groups of 32 quants, twelve bytes of
// interleaved six-bit scales and minimums, nibble pairs, and for Q5_K a plane of fifth bits.
module Q45K {
  import opened Bytes

  const QUANTS := 256
  const Q4_BYTES := 144
  const Q5_BYTES := 176

  // Quants, scales and minimums are uint8 arrays; the two factors are the same opaque bytes.
  datatype Block = Block(quants: seq<byte>, scales: seq<byte>, minimums: seq<byte>, factor: seq<byte>)

  predicate Valid(block: Block) {
    && |block.quants| == QUANTS
    && |block.scales| == |block.minimums| == 8
    && |block.factor| == 2
  }

  //////////////////////////////////////////////////////////////////////////////
  // pack_q4_k_scales
  //////////////////////////////////////////////////////////////////////////////

  // A byte holding the low six bits of one entry and the top two bits of another.
  function SixAndTwo(first: byte, second: byte): byte {
    (first & 0x3F) | ((second >> 4) << 6)
  }

  function TwoNibbles(low: byte, high: byte): byte {
    (low & 0x0F) | ((high & 0x0F) << 4)
  }

  function PackedScales(scales: seq<byte>, minimums: seq<byte>): (p: seq<byte>)
    requires |scales| == |minimums| == 8
    ensures |p| == 12
  {
    seq(4, i requires 0 <= i < 4 => SixAndTwo(scales[i], scales[i + 4]))
    + seq(4, i requires 0 <= i < 4 => SixAndTwo(minimums[i], minimums[i + 4]))
    + seq(4, i requires 0 <= i < 4 => TwoNibbles(scales[i + 4], minimums[i + 4]))
  }

  // scale_i and min_i of the unpackers.
  function ScaleAt(packed: seq<byte>, i: nat): byte
    requires |packed| == 12 && i < 8
  {
    if i < 4 then packed[i] & 0x3F else (packed[i + 4] & 0x0F) | ((packed[i - 4] >> 6) << 4)
  }

  function MinimumAt(packed: seq<byte>, i: nat): byte
    requires |packed| == 12 && i < 8
  {
    if i < 4 then packed[i + 4] & 0x3F else (packed[i + 4] >> 4) | ((packed[i] >> 6) << 4)
  }

  lemma SplitSixBits(first: byte, second: byte, other: byte)
    ensures SixAndTwo(first, second) & 0x3F == first & 0x3F
    ensures (TwoNibbles(second, other) & 0x0F) | ((SixAndTwo(first, second) >> 6) << 4) == second & 0x3F
    ensures (TwoNibbles(other, second) >> 4) | ((SixAndTwo(first, second) >> 6) << 4) == second & 0x3F
  {
  }

  // Unpacking gives the low six bits of what was packed.
  lemma ScaleIsLowSixBits(scales: seq<byte>, minimums: seq<byte>, i: nat)
    requires |scales| == |minimums| == 8 && i < 8
    ensures ScaleAt(PackedScales(scales, minimums), i) == scales[i] & 0x3F
    ensures MinimumAt(PackedScales(scales, minimums), i) == minimums[i] & 0x3F
  {
    var k := i % 4;
    SplitSixBits(scales[k], scales[k + 4], minimums[k + 4]);
    SplitSixBits(minimums[k], minimums[k + 4], scales[k + 4]);
  }

  lemma SixBitsIff(b: byte)
    ensures b & 0x3F == b <==> b < 64
  {
  }

  predicate AllBelow(s: seq<byte>, limit: byte) {
    forall i :: 0 <= i < |s| ==> s[i] < limit
  }

  /** All eight scales and minimums survive the twelve-byte packing exactly when they fit in six bits. */
  lemma ScalesSurviveIffSixBits(scales: seq<byte>, minimums: seq<byte>)
    requires |scales| == |minimums| == 8
    ensures var packed := PackedScales(scales, minimums);
      (forall i :: 0 <= i < 8 ==> ScaleAt(packed, i) == scales[i] && MinimumAt(packed, i) == minimums[i])
      <==> AllBelow(scales, 64) && AllBelow(minimums, 64)
  {
    forall i | 0 <= i < 8
      ensures ScaleAt(PackedScales(scales, minimums), i) == scales[i] <==> scales[i] < 64
      ensures MinimumAt(PackedScales(scales, minimums), i) == minimums[i] <==> minimums[i] < 64
    {
      ScaleIsLowSixBits(scales, minimums, i);
      SixBitsIff(scales[i]);
      SixBitsIff(minimums[i]);
    }
  }

  //////////////////////////////////////////////////////////////////////////////
  // Nibble pairs
  //////////////////////////////////////////////////////////////////////////////

  function Pair(low: byte, high: byte): byte {
    low | (high << 4)
  }

  // Byte b of qs interleaves position b % 32 of groups 2 * (b / 32) and 2 * (b / 32) + 1.
  function NibblePairs(quants: seq<byte>): (s: seq<byte>)
    requires |quants| == QUANTS
    ensures |s| == 128
  {
    seq(128, b requires 0 <= b < 128 => Pair(quants[b / 32 * 64 + b % 32], quants[b / 32 * 64 + 32 + b % 32]))
  }

  function NibbleAt(qs: seq<byte>, p: nat): byte
    requires |qs| == 128 && p < QUANTS
  {
    var source := qs[p / 64 * 32 + p % 32];
    if p / 32 % 2 == 0 then source & 0x0F else source >> 4
  }

  lemma PairPosition(pair: nat, j: nat)
    requires pair < 4 && j < 32
    ensures var b, p := pair * 32 + j, pair * 64 + j;
      && b / 32 == pair && b % 32 == j
      && p / 64 == (p + 32) / 64 == pair && p % 32 == (p + 32) % 32 == j
      && p / 32 % 2 == 0 && (p + 32) / 32 % 2 == 1
  {
  }

  lemma PairAt(quants: seq<byte>, pair: nat, j: nat)
    requires |quants| == QUANTS && pair < 4 && j < 32
    ensures var p := pair * 64 + j;
      && NibbleAt(NibblePairs(quants), p) == Pair(quants[p], quants[p + 32]) & 0x0F
      && NibbleAt(NibblePairs(quants), p + 32) == Pair(quants[p], quants[p + 32]) >> 4
  {
    PairPosition(pair, j);
    assert NibblePairs(quants)[pair * 32 + j] == Pair(quants[pair * 64 + j], quants[pair * 64 + 32 + j]);
  }

  lemma NibblesIff(low: byte, high: byte)
    ensures var packed := Pair(low, high);
      (packed & 0x0F == low && packed >> 4 == high) <==> (low < 16 && high < 16)
  {
  }

  lemma Halves(p: nat)
    requires p < QUANTS
    ensures var pair, j := p / 64, p % 32;
            pair < 4 && j < 32 && (p == pair * 64 + j || p == pair * 64 + j + 32)
  {
  }

  /** The nibble interleaving is undone by unpacking exactly when every quant fits in four bits. */
  lemma NibblesSurviveIffFourBits(quants: seq<byte>)
    requires |quants| == QUANTS
    ensures (forall p :: 0 <= p < QUANTS ==> NibbleAt(NibblePairs(quants), p) == quants[p]) <==> AllBelow(quants, 16)
  {
    var qs := NibblePairs(quants);
    forall p | 0 <= p < QUANTS
      ensures AllBelow(quants, 16) ==> NibbleAt(qs, p) == quants[p]
      ensures (forall r :: 0 <= r < QUANTS ==> NibbleAt(qs, r) == quants[r]) ==> quants[p] < 16
    {
      Halves(p);
      PairAt(quants, p / 64, p % 32);
      NibblesIff(quants[p / 64 * 64 + p % 32], quants[p / 64 * 64 + p % 32 + 32]);
    }
  }

  //////////////////////////////////////////////////////////////////////////////
  // The plane of fifth bits
  //////////////////////////////////////////////////////////////////////////////

  function FifthBit(quant: byte): (r: byte)
    ensures r < 2
  {
    (quant & 0x10) >> 4
  }

  function PlaneWeight(group: nat): byte
    requires group < 8
  {
    [1, 2, 4, 8, 16, 32, 64, 128][group]
  }

  // np.sum(high * weights, axis=-2, dtype=uint8) over the first `groups` groups.
  function PlaneSum(quants: seq<byte>, groups: nat, j: nat): byte
    requires |quants| == QUANTS && groups <= 8 && j < 32
  {
    if groups == 0 then 0
    else PlaneSum(quants, groups - 1, j) + FifthBit(quants[(groups - 1) * 32 + j]) * PlaneWeight(groups - 1)
  }

  function FifthBitPlane(quants: seq<byte>): (s: seq<byte>)
    requires |quants| == QUANTS
    ensures |s| == 32
  {
    seq(32, j requires 0 <= j < 32 => PlaneSum(quants, 8, j))
  }

  // (qh >> group) & 1
  function PlaneBit(plane: byte, group: nat): byte
    requires group < 8
  {
    (if group == 0 then plane
     else if group == 1 then plane >> 1
     else if group == 2 then plane >> 2
     else if group == 3 then plane >> 3
     else if group == 4 then plane >> 4
     else if group == 5 then plane >> 5
     else if group == 6 then plane >> 6
     else plane >> 7) & 1
  }

  lemma WeightedSumKeepsBits(a: byte, b: byte, c: byte, d: byte, e: byte, f: byte, g: byte, h: byte)
    requires a < 2 && b < 2 && c < 2 && d < 2 && e < 2 && f < 2 && g < 2 && h < 2
    ensures var sum := 0 + a * 1 + b * 2 + c * 4 + d * 8 + e * 16 + f * 32 + g * 64 + h * 128;
      && PlaneBit(sum, 0) == a && PlaneBit(sum, 1) == b && PlaneBit(sum, 2) == c && PlaneBit(sum, 3) == d
      && PlaneBit(sum, 4) == e && PlaneBit(sum, 5) == f && PlaneBit(sum, 6) == g && PlaneBit(sum, 7) == h
  {
  }

  lemma PlaneSumUnrolled(quants: seq<byte>, j: nat)
    requires |quants| == QUANTS && j < 32
    ensures PlaneSum(quants, 8, j)
      == 0 + FifthBit(quants[j]) * 1 + FifthBit(quants[32 + j]) * 2 + FifthBit(quants[64 + j]) * 4
         + FifthBit(quants[96 + j]) * 8 + FifthBit(quants[128 + j]) * 16 + FifthBit(quants[160 + j]) * 32
         + FifthBit(quants[192 + j]) * 64 + FifthBit(quants[224 + j]) * 128
  {
    assert PlaneSum(quants, 1, j) == 0 + FifthBit(quants[j]) * 1;
    assert PlaneSum(quants, 2, j) == PlaneSum(quants, 1, j) + FifthBit(quants[32 + j]) * 2;
    assert PlaneSum(quants, 3, j) == PlaneSum(quants, 2, j) + FifthBit(quants[64 + j]) * 4;
    assert PlaneSum(quants, 4, j) == PlaneSum(quants, 3, j) + FifthBit(quants[96 + j]) * 8;
    assert PlaneSum(quants, 5, j) == PlaneSum(quants, 4, j) + FifthBit(quants[128 + j]) * 16;
    assert PlaneSum(quants, 6, j) == PlaneSum(quants, 5, j) + FifthBit(quants[160 + j]) * 32;
    assert PlaneSum(quants, 7, j) == PlaneSum(quants, 6, j) + FifthBit(quants[192 + j]) * 64;
  }

  lemma PlaneBits(plane: byte, quants: seq<byte>, group: nat, j: nat)
    requires |quants| == QUANTS && group < 8 && j < 32 && plane == PlaneSum(quants, 8, j)
    ensures PlaneBit(plane, group) == FifthBit(quants[group * 32 + j])
  {
    var bits := FifthBits(quants, j);
    PlaneSumOfBits(quants, j);
    BitOfWeightedSum(bits, group);
    assert bits[group] == FifthBit(quants[group * 32 + j]);
  }

  lemma PlaneSumOfBits(quants: seq<byte>, j: nat)
    requires |quants| == QUANTS && j < 32
    ensures var bits := FifthBits(quants, j);
      PlaneSum(quants, 8, j) == 0 + bits[0] * 1 + bits[1] * 2 + bits[2] * 4 + bits[3] * 8
                                + bits[4] * 16 + bits[5] * 32 + bits[6] * 64 + bits[7] * 128
  {
    PlaneSumUnrolled(quants, j);
    var bits := FifthBits(quants, j);
    assert bits[0] == FifthBit(quants[j]) && bits[1] == FifthBit(quants[32 + j]);
    assert bits[2] == FifthBit(quants[64 + j]) && bits[3] == FifthBit(quants[96 + j]);
    assert bits[4] == FifthBit(quants[128 + j]) && bits[5] == FifthBit(quants[160 + j]);
    assert bits[6] == FifthBit(quants[192 + j]) && bits[7] == FifthBit(quants[224 + j]);
  }

  function FifthBits(quants: seq<byte>, j: nat): (bits: seq<byte>)
    requires |quants| == QUANTS && j < 32
    ensures |bits| == 8 && forall group :: 0 <= group < 8 ==> bits[group] < 2
  {
    seq(8, group requires 0 <= group < 8 => FifthBit(quants[group * 32 + j]))
  }

  lemma BitOfWeightedSum(bits: seq<byte>, group: nat)
    requires |bits| == 8 && (forall k :: 0 <= k < 8 ==> bits[k] < 2) && group < 8
    ensures PlaneBit(0 + bits[0] * 1 + bits[1] * 2 + bits[2] * 4 + bits[3] * 8
                     + bits[4] * 16 + bits[5] * 32 + bits[6] * 64 + bits[7] * 128, group) == bits[group]
  {
    WeightedSumKeepsBits(bits[0], bits[1], bits[2], bits[3], bits[4], bits[5], bits[6], bits[7]);
  }

  /** Every group's fifth bit can be read back from the weighted-sum plane. */
  lemma FifthBitSurvives(quants: seq<byte>, group: nat, j: nat)
    requires |quants| == QUANTS && group < 8 && j < 32
    ensures PlaneBit(FifthBitPlane(quants)[j], group) == FifthBit(quants[group * 32 + j])
  {
    PlaneBits(FifthBitPlane(quants)[j], quants, group, j);
  }

  //////////////////////////////////////////////////////////////////////////////
  // Blocks
  //////////////////////////////////////////////////////////////////////////////

  function LowNibble(quant: byte): byte {
    quant & 0x0F
  }

  function LowNibbles(quants: seq<byte>): (s: seq<byte>)
    ensures |s| == |quants|
  {
    seq(|quants|, p requires 0 <= p < |quants| => LowNibble(quants[p]))
  }

  function Q4Packed(block: Block): (data: seq<byte>)
    requires Valid(block)
    ensures |data| == Q4_BYTES
  {
    block.factor + block.factor + PackedScales(block.scales, block.minimums) + NibblePairs(block.quants)
  }

  function Q5Packed(block: Block): (data: seq<byte>)
    requires Valid(block)
    ensures |data| == Q5_BYTES
  {
    block.factor + block.factor + PackedScales(block.scales, block.minimums)
    + FifthBitPlane(block.quants) + NibblePairs(LowNibbles(block.quants))
  }

  // The quants read by dequant_q4_k and dequant_q5_k.
  function Q4QuantAt(data: seq<byte>, p: nat): byte
    requires |data| == Q4_BYTES && p < QUANTS
  {
    NibbleAt(data[16..144], p)
  }

  function Q5QuantAt(data: seq<byte>, p: nat): byte
    requires |data| == Q5_BYTES && p < QUANTS
  {
    NibbleAt(data[48..176], p) | (PlaneBit(data[16..48][p % 32], p / 32) << 4)
  }

  // data[start : start + len(part)] = part
  method WriteSlice(data: array<byte>, start: nat, part: seq<byte>)
    requires start + |part| <= data.Length
    modifies data
    ensures data[..] == old(data[..start]) + part + old(data[start + |part|..])
  {
    for k := 0 to |part|
      invariant data[..start] == old(data[..start])
      invariant data[start..start + k] == part[..k]
      invariant data[start + k..] == old(data[start + k..])
    {
      data[start + k] := part[k];
    }
    assert data[..] == data[..start] + data[start..start + |part|] + data[start + |part|..];
  }

  method PackQ4Block(block: Block) returns (data: array<byte>)
    requires Valid(block)
    ensures data[..] == Q4Packed(block)
  {
    data := new byte[Q4_BYTES](_ => 0);
    WriteSlice(data, 0, block.factor);
    WriteSlice(data, 2, block.factor);
    WriteSlice(data, 4, PackedScales(block.scales, block.minimums));
    WriteSlice(data, 16, NibblePairs(block.quants));
  }

  method PackQ5Block(block: Block) returns (data: array<byte>)
    requires Valid(block)
    ensures data[..] == Q5Packed(block)
  {
    data := new byte[Q5_BYTES](_ => 0);
    WriteSlice(data, 0, block.factor);
    WriteSlice(data, 2, block.factor);
    WriteSlice(data, 4, PackedScales(block.scales, block.minimums));
    WriteSlice(data, 16, FifthBitPlane(block.quants));
    WriteSlice(data, 48, NibblePairs(LowNibbles(block.quants)));
  }

  predicate ScalesAndFactorSurvive(data: seq<byte>, block: Block)
    requires |data| >= 16 && Valid(block)
  {
    && (forall i :: 0 <= i < 8 ==>
      ScaleAt(data[4..16], i) == block.scales[i] && MinimumAt(data[4..16], i) == block.minimums[i])
    && data[0..2] == data[2..4] == block.factor
  }

  /** A Q4_K block survives packing exactly when its scales and minimums fit in six bits and its
      quants in four. */
  lemma Q4SurvivesIff(block: Block)
    requires Valid(block)
    ensures var data := Q4Packed(block);
      (ScalesAndFactorSurvive(data, block) && forall p :: 0 <= p < QUANTS ==> Q4QuantAt(data, p) == block.quants[p])
      <==> AllBelow(block.scales, 64) && AllBelow(block.minimums, 64) && AllBelow(block.quants, 16)
  {
    var data := Q4Packed(block);
    assert data[0..2] == data[2..4] == block.factor;
    assert data[4..16] == PackedScales(block.scales, block.minimums);
    assert data[16..144] == NibblePairs(block.quants);
    ScalesSurviveIffSixBits(block.scales, block.minimums);
    NibblesSurviveIffFourBits(block.quants);
  }

  lemma FiveBitsRejoin(quant: byte)
    ensures quant & 0x0F < 16
    ensures (quant & 0x0F) | (FifthBit(quant) << 4) == quant <==> quant < 32
  {
  }

  lemma LowNibblesAreSmall(quants: seq<byte>)
    ensures AllBelow(LowNibbles(quants), 16)
  {
    forall k | 0 <= k < |quants| ensures LowNibbles(quants)[k] < 16 {
      FiveBitsRejoin(quants[k]);
    }
  }

  // What the unpacker reads: the low nibble and the fifth bit.
  lemma Q5Parts(block: Block, p: nat)
    requires Valid(block) && p < QUANTS
    ensures Q5QuantAt(Q5Packed(block), p) == (block.quants[p] & 0x0F) | (FifthBit(block.quants[p]) << 4)
  {
    var data, low := Q5Packed(block), LowNibbles(block.quants);
    assert data[16..48] == FifthBitPlane(block.quants);
    assert data[48..176] == NibblePairs(low);
    LowNibblesAreSmall(block.quants);
    NibblesSurviveIffFourBits(low);
    FifthBitSurvives(block.quants, p / 32, p % 32);
    assert NibbleAt(NibblePairs(low), p) == low[p] == LowNibble(block.quants[p]);
  }

  lemma Q5Quant(block: Block, p: nat)
    requires Valid(block) && p < QUANTS
    ensures Q5QuantAt(Q5Packed(block), p) == block.quants[p] <==> block.quants[p] < 32
  {
    Q5Parts(block, p);
    FiveBitsRejoin(block.quants[p]);
  }

  /** A Q5_K block survives packing exactly when its scales and minimums fit in six bits and its
      quants in five. */
  lemma Q5SurvivesIff(block: Block)
    requires Valid(block)
    ensures var data := Q5Packed(block);
      (ScalesAndFactorSurvive(data, block) && forall p :: 0 <= p < QUANTS ==> Q5QuantAt(data, p) == block.quants[p])
      <==> AllBelow(block.scales, 64) && AllBelow(block.minimums, 64) && AllBelow(block.quants, 32)
  {
    var data := Q5Packed(block);
    assert data[0..2] == data[2..4] == block.factor;
    assert data[4..16] == PackedScales(block.scales, block.minimums);
    ScalesSurviveIffSixBits(block.scales, block.minimums);
    forall p | 0 <= p < QUANTS ensures Q5QuantAt(data, p) == block.quants[p] <==> block.quants[p] < 32 {
      Q5Quant(block, p);
    }
  }

  function Q4Blocks(blocks: seq<Block>): (r: seq<seq<byte>>)
    requires forall k :: 0 <= k < |blocks| ==> Valid(blocks[k])
    ensures |r| == |blocks|
  {
    seq(|blocks|, k requires 0 <= k < |blocks| => Q4Packed(blocks[k]))
  }

  function Q5Blocks(blocks: seq<Block>): (r: seq<seq<byte>>)
    requires forall k :: 0 <= k < |blocks| ==> Valid(blocks[k])
    ensures |r| == |blocks|
  {
    seq(|blocks|, k requires 0 <= k < |blocks| => Q5Packed(blocks[k]))
  }

  /** Block b of a buffer of packed blocks is found at its offset, whatever the number of rows and blocks. */
  lemma BlocksOfBuffers(blocks: seq<Block>, b: nat)
    requires forall k :: 0 <= k < |blocks| ==> Valid(blocks[k])
    requires b < |blocks|
    ensures |Flatten(Q4Blocks(blocks))| == |blocks| * Q4_BYTES
    ensures HoldsAt(Flatten(Q4Blocks(blocks)), b * Q4_BYTES, Q4Blocks(blocks)[b])
    ensures |Flatten(Q5Blocks(blocks))| == |blocks| * Q5_BYTES
    ensures HoldsAt(Flatten(Q5Blocks(blocks)), b * Q5_BYTES, Q5Blocks(blocks)[b])
  {
    BlockOfBuffer(Q4Blocks(blocks), Q4_BYTES, b);
    BlockOfBuffer(Q5Blocks(blocks), Q5_BYTES, b);
  }

  //////////////////////////////////////////////////////////////////////////////
  // Byte layout
  //////////////////////////////////////////////////////////////////////////////

  /** The byte layout of a Q4_K block: the factor twice, twelve bytes of scales and minimums, and 128
      bytes of nibble pairs, byte 32 * g + j holding quant j of groups 2 * g and 2 * g + 1. */
  lemma Q4Layout(block: Block, i: nat, g: nat, j: nat)
    requires Valid(block) && i < 4 && g < 4 && j < 32
    ensures var data := Q4Packed(block);
      && |data| == 144 && data[0..2] == block.factor && data[2..4] == block.factor
      && data[4 + i] == (block.scales[i] & 0x3F) | ((block.scales[4 + i] >> 4) << 6)
      && data[8 + i] == (block.minimums[i] & 0x3F) | ((block.minimums[4 + i] >> 4) << 6)
      && data[12 + i] == (block.scales[4 + i] & 0x0F) | ((block.minimums[4 + i] & 0x0F) << 4)
      && data[16 + 32 * g + j] == block.quants[64 * g + j] | (block.quants[64 * g + 32 + j] << 4)
  {
    var data, scales := Q4Packed(block), PackedScales(block.scales, block.minimums);
    assert data[0..2] == block.factor && data[2..4] == block.factor;
    ScaleBytes(block, i);
    assert data[4 + i] == scales[i] && data[8 + i] == scales[4 + i] && data[12 + i] == scales[8 + i];
    assert data[16 + 32 * g + j] == NibblePairs(block.quants)[32 * g + j];
    PairBytes(block.quants, g, j);
  }

  lemma PairBytes(quants: seq<byte>, g: nat, j: nat)
    requires |quants| == QUANTS && g < 4 && j < 32
    ensures NibblePairs(quants)[32 * g + j] == quants[64 * g + j] | (quants[64 * g + 32 + j] << 4)
  {
    PairPosition(g, j);
  }

  lemma ScaleBytes(block: Block, i: nat)
    requires Valid(block) && i < 4
    ensures var scales := PackedScales(block.scales, block.minimums);
      && scales[i] == (block.scales[i] & 0x3F) | ((block.scales[4 + i] >> 4) << 6)
      && scales[4 + i] == (block.minimums[i] & 0x3F) | ((block.minimums[4 + i] >> 4) << 6)
      && scales[8 + i] == (block.scales[4 + i] & 0x0F) | ((block.minimums[4 + i] & 0x0F) << 4)
  {
  }

  /** The byte layout of a Q5_K block: as before, but with 32 bytes of fifth bits before the pairs of
      low nibbles, bit g of byte j being bit 4 of quant j of group g. */
  lemma Q5Layout(block: Block, i: nat, g: nat, j: nat)
    requires Valid(block) && i < 4 && g < 4 && j < 32
    ensures var data := Q5Packed(block);
      && |data| == 176 && data[0..2] == block.factor && data[2..4] == block.factor
      && data[4 + i] == (block.scales[i] & 0x3F) | ((block.scales[4 + i] >> 4) << 6)
      && data[8 + i] == (block.minimums[i] & 0x3F) | ((block.minimums[4 + i] >> 4) << 6)
      && data[12 + i] == (block.scales[4 + i] & 0x0F) | ((block.minimums[4 + i] & 0x0F) << 4)
      && data[48 + 32 * g + j] == (block.quants[64 * g + j] & 0x0F) | ((block.quants[64 * g + 32 + j] & 0x0F) << 4)
  {
    var data, scales := Q5Packed(block), PackedScales(block.scales, block.minimums);
    assert data[0..2] == block.factor && data[2..4] == block.factor;
    ScaleBytes(block, i);
    assert data[4 + i] == scales[i] && data[8 + i] == scales[4 + i] && data[12 + i] == scales[8 + i];
    assert data[48 + 32 * g + j] == NibblePairs(LowNibbles(block.quants))[32 * g + j];
    PairBytes(LowNibbles(block.quants), g, j);
  }

  lemma Q5FifthBitLayout(block: Block, j: nat)
    requires Valid(block) && j < 32
    ensures var plane := Q5Packed(block)[16 + j];
      && plane & 1 == (block.quants[j] >> 4) & 1
      && (plane >> 1) & 1 == (block.quants[32 + j] >> 4) & 1
      && (plane >> 2) & 1 == (block.quants[64 + j] >> 4) & 1
      && (plane >> 3) & 1 == (block.quants[96 + j] >> 4) & 1
      && (plane >> 4) & 1 == (block.quants[128 + j] >> 4) & 1
      && (plane >> 5) & 1 == (block.quants[160 + j] >> 4) & 1
      && (plane >> 6) & 1 == (block.quants[192 + j] >> 4) & 1
      && (plane >> 7) & 1 == (block.quants[224 + j] >> 4) & 1
  {
    assert Q5Packed(block)[16 + j] == FifthBitPlane(block.quants)[j];
    FifthBitReadBack(block.quants, 0, j);
    FifthBitReadBack(block.quants, 1, j);
    FifthBitReadBack(block.quants, 2, j);
    FifthBitReadBack(block.quants, 3, j);
    FifthBitReadBack(block.quants, 4, j);
    FifthBitReadBack(block.quants, 5, j);
    FifthBitReadBack(block.quants, 6, j);
    FifthBitReadBack(block.quants, 7, j);
  }

  lemma FifthBitReadBack(quants: seq<byte>, group: nat, j: nat)
    requires |quants| == QUANTS && group < 8 && j < 32
    ensures PlaneBit(FifthBitPlane(quants)[j], group) == (quants[group * 32 + j] >> 4) & 1
  {
    FifthBitSurvives(quants, group, j);
    FifthBitIs(quants[group * 32 + j]);
  }

  lemma FifthBitIs(quant: byte)
    ensures FifthBit(quant) == (quant >> 4) & 1
  {
  }
}
