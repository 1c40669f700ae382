// The Q6_K block format of the oracles: 256 six-bit quants split into a low-nibble plane and a
// two-bit plane, sixteen scales and a half-precision factor, 210 bytes in all.
module Q6K {
  import opened Bytes

  const QUANTS := 256
  const BLOCK_BYTES := 210

  // A block before packing; the scales and the factor are opaque bytes.
  datatype Block = Block(quants: seq<int>, scales: seq<byte>, factor: seq<byte>)

  predicate Valid(block: Block) {
    && ValidQuants(block.quants)
    && |block.scales| == 16
    && |block.factor| == 2
  }

  predicate ValidQuants(quants: seq<int>) {
    |quants| == QUANTS && forall p :: 0 <= p < QUANTS ==> -32 <= quants[p] < 32
  }

  // q_u = (q_signed + 32).astype(uint8)
  function Stored(quant: int): byte
    requires -32 <= quant < 32
  {
    ToByte(quant + 32)
  }

  function StoredAll(quants: seq<int>): (s: seq<byte>)
    requires ValidQuants(quants)
    ensures |s| == QUANTS
  {
    seq(QUANTS, p requires 0 <= p < QUANTS => Stored(quants[p]))
  }

  //////////////////////////////////////////////////////////////////////////////
  // Packing
  //////////////////////////////////////////////////////////////////////////////

  function LowField(u: byte, segment: nat): byte {
    if segment < 2 then u & 0x0F else (u & 0x0F) << 4
  }

  function HighField(u: byte, segment: nat): byte {
    var field := (u >> 4) & 0x03;
    if segment == 0 then field
    else if segment == 1 then field << 2
    else if segment == 2 then field << 4
    else field << 6
  }

  // The plane positions written by loop step `step`, which is segment step % 4 of half step / 4.
  function LowStart(step: nat): nat {
    step / 4 * 64 + step % 4 % 2 * 32
  }

  function HighStart(step: nat): nat {
    step / 4 * 32
  }

  // What a loop step ORs into byte i of the low and of the high plane.
  function LowPart(stored: seq<byte>, step: nat, i: int): byte
    requires |stored| == QUANTS && step < 8
  {
    var j := i - LowStart(step);
    if 0 <= j < 32 then LowField(stored[step * 32 + j], step % 4) else 0
  }

  function HighPart(stored: seq<byte>, step: nat, i: int): byte
    requires |stored| == QUANTS && step < 8
  {
    var j := i - HighStart(step);
    if 0 <= j < 32 then HighField(stored[step * 32 + j], step % 4) else 0
  }

  function LowByte(stored: seq<byte>, steps: nat, i: int): byte
    requires |stored| == QUANTS && steps <= 8
  {
    if steps == 0 then 0 else LowByte(stored, steps - 1, i) | LowPart(stored, steps - 1, i)
  }

  function HighByte(stored: seq<byte>, steps: nat, i: int): byte
    requires |stored| == QUANTS && steps <= 8
  {
    if steps == 0 then 0 else HighByte(stored, steps - 1, i) | HighPart(stored, steps - 1, i)
  }

  function LowPlane(stored: seq<byte>): (s: seq<byte>)
    requires |stored| == QUANTS
    ensures |s| == 128
  {
    seq(128, i => LowByte(stored, 8, i))
  }

  function HighPlane(stored: seq<byte>): (s: seq<byte>)
    requires |stored| == QUANTS
    ensures |s| == 64
  {
    seq(64, i => HighByte(stored, 8, i))
  }

  function Packed(block: Block): (data: seq<byte>)
    requires Valid(block)
    ensures |data| == BLOCK_BYTES
  {
    LowPlane(StoredAll(block.quants)) + HighPlane(StoredAll(block.quants)) + block.scales + block.factor
  }

  // ql[:, a : a + 32] |= ..., one loop step
  method OrLow(ql: array<byte>, stored: seq<byte>, step: nat)
    requires ql.Length == 128 && |stored| == QUANTS && step < 8
    modifies ql
    ensures forall i :: 0 <= i < 128 ==> ql[i] == old(ql[i]) | LowPart(stored, step, i)
  {
    var start := LowStart(step);
    for j := 0 to 32
      invariant forall i :: 0 <= i < 128 && start <= i < start + j ==> ql[i] == old(ql[i]) | LowPart(stored, step, i)
      invariant forall i :: 0 <= i < 128 && !(start <= i < start + j) ==> ql[i] == old(ql[i])
    {
      ql[start + j] := ql[start + j] | LowField(stored[step * 32 + j], step % 4);
    }
  }

  // qh[:, half * 32 : half * 32 + 32] |= ..., one loop step
  method OrHigh(qh: array<byte>, stored: seq<byte>, step: nat)
    requires qh.Length == 64 && |stored| == QUANTS && step < 8
    modifies qh
    ensures forall i :: 0 <= i < 64 ==> qh[i] == old(qh[i]) | HighPart(stored, step, i)
  {
    var start := HighStart(step);
    for j := 0 to 32
      invariant forall i :: 0 <= i < 64 && start <= i < start + j ==> qh[i] == old(qh[i]) | HighPart(stored, step, i)
      invariant forall i :: 0 <= i < 64 && !(start <= i < start + j) ==> qh[i] == old(qh[i])
    {
      qh[start + j] := qh[start + j] | HighField(stored[step * 32 + j], step % 4);
    }
  }

  ghost predicate PlanesAfter(ql: array<byte>, qh: array<byte>, stored: seq<byte>, steps: nat)
    requires ql.Length == 128 && qh.Length == 64 && |stored| == QUANTS && steps <= 8
    reads ql, qh
  {
    && (forall i :: 0 <= i < 128 ==> ql[i] == LowByte(stored, steps, i))
    && (forall i :: 0 <= i < 64 ==> qh[i] == HighByte(stored, steps, i))
  }

  // One iteration of the loop over halves and segments.
  method PackSegment(ql: array<byte>, qh: array<byte>, stored: seq<byte>, half: nat, segment: nat)
    requires ql.Length == 128 && qh.Length == 64 && ql != qh && |stored| == QUANTS && half < 2 && segment < 4
    requires PlanesAfter(ql, qh, stored, half * 4 + segment)
    modifies ql, qh
    ensures PlanesAfter(ql, qh, stored, half * 4 + segment + 1)
  {
    OrLow(ql, stored, half * 4 + segment);
    OrHigh(qh, stored, half * 4 + segment);
  }

  // All iterations, starting from zeroed planes.
  method PackPlanes(ql: array<byte>, qh: array<byte>, stored: seq<byte>)
    requires ql.Length == 128 && qh.Length == 64 && ql != qh && |stored| == QUANTS
    requires PlanesAfter(ql, qh, stored, 0)
    modifies ql, qh
    ensures PlanesAfter(ql, qh, stored, 8)
  {
    for half := 0 to 2
      invariant PlanesAfter(ql, qh, stored, half * 4)
    {
      for segment := 0 to 4
        invariant PlanesAfter(ql, qh, stored, half * 4 + segment)
      {
        PackSegment(ql, qh, stored, half, segment);
      }
    }
  }

  method PackBlock(block: Block) returns (data: seq<byte>)
    requires Valid(block)
    ensures data == Packed(block)
  {
    var stored := StoredAll(block.quants);
    var ql := new byte[128](_ => 0);
    var qh := new byte[64](_ => 0);
    PackPlanes(ql, qh, stored);
    assert ql[..] == LowPlane(stored);
    assert qh[..] == HighPlane(stored);
    data := ql[..] + qh[..] + block.scales + block.factor;
  }

  method PackBlocks(blocks: seq<Block>) returns (data: seq<byte>)
    requires forall b :: 0 <= b < |blocks| ==> Valid(blocks[b])
    ensures data == Flatten(PackedBlocks(blocks))
  {
    data := [];
    for b := 0 to |blocks|
      invariant data == Flatten(PackedBlocks(blocks)[..b])
    {
      var packed := PackBlock(blocks[b]);
      assert PackedBlocks(blocks)[..b + 1][..b] == PackedBlocks(blocks)[..b];
      data := data + packed;
    }
    assert PackedBlocks(blocks)[..|blocks|] == PackedBlocks(blocks);
  }

  //////////////////////////////////////////////////////////////////////////////
  // Unpacking
  //////////////////////////////////////////////////////////////////////////////

  function HighBits(plane: byte, segment: nat): byte {
    (if segment == 0 then plane
     else if segment == 1 then plane >> 2
     else if segment == 2 then plane >> 4
     else plane >> 6) & 0x03
  }

  // The six-bit value at position j of a segment of a half.
  function StoredAt(data: seq<byte>, half: nat, segment: nat, j: nat): byte
    requires |data| == BLOCK_BYTES && half < 2 && segment < 4 && j < 32
  {
    var low := data[half * 64 + segment % 2 * 32 + j];
    var nibble := if segment < 2 then low & 0x0F else (low >> 4) & 0x0F;
    (HighBits(data[128 + half * 32 + j], segment) << 4) | nibble
  }

  function QuantAt(data: seq<byte>, p: nat): int
    requires |data| == BLOCK_BYTES && p < QUANTS
  {
    FromByte(StoredAt(data, p / 128, p % 128 / 32, p % 32)) - 32
  }

  function ScaleAt(data: seq<byte>, p: nat): byte
    requires |data| == BLOCK_BYTES && p < QUANTS
  {
    data[192 + p / 128 * 8 + p % 128 / 32 * 2 + (if p % 32 >= 16 then 1 else 0)]
  }

  function QuantsUpTo(data: seq<byte>, n: nat): (s: seq<int>)
    requires |data| == BLOCK_BYTES && n <= QUANTS
    ensures |s| == n
  {
    seq(n, p requires 0 <= p < n => QuantAt(data, p))
  }

  function ScalesUpTo(data: seq<byte>, n: nat): (s: seq<byte>)
    requires |data| == BLOCK_BYTES && n <= QUANTS
    ensures |s| == n
  {
    seq(n, p requires 0 <= p < n => ScaleAt(data, p))
  }

  lemma Position(half: nat, segment: nat, j: nat)
    requires half < 2 && segment < 4 && j < 32
    ensures var p := half * 128 + segment * 32 + j;
            p < QUANTS && p / 128 == half && p % 128 / 32 == segment && p % 32 == j
            && p / 16 == half * 8 + segment * 2 + (if j >= 16 then 1 else 0)
  {
  }

  // The body of dequant_q6_k's loops, up to the opaque multiplication: the quants of one segment,
  // each with the scale byte applied to it.
  method UnpackSegment(data: seq<byte>, half: nat, segment: nat, done: seq<int>, doneScales: seq<byte>)
    returns (quants: seq<int>, scales: seq<byte>)
    requires |data| == BLOCK_BYTES && half < 2 && segment < 4
    requires done == QuantsUpTo(data, half * 128 + segment * 32)
    requires doneScales == ScalesUpTo(data, half * 128 + segment * 32)
    ensures quants == QuantsUpTo(data, half * 128 + segment * 32 + 32)
    ensures scales == ScalesUpTo(data, half * 128 + segment * 32 + 32)
  {
    quants, scales := done, doneScales;
    for j := 0 to 32
      invariant quants == QuantsUpTo(data, half * 128 + segment * 32 + j)
      invariant scales == ScalesUpTo(data, half * 128 + segment * 32 + j)
    {
      Position(half, segment, j);
      var scaleOffset := if j >= 16 then 1 else 0;
      quants := quants + [FromByte(StoredAt(data, half, segment, j)) - 32];
      scales := scales + [data[192 + half * 8 + segment * 2 + scaleOffset]];
    }
  }

  method UnpackBlock(data: seq<byte>) returns (quants: seq<int>, scales: seq<byte>)
    requires |data| == BLOCK_BYTES
    ensures quants == QuantsUpTo(data, QUANTS) && scales == ScalesUpTo(data, QUANTS)
  {
    quants, scales := [], [];
    for half := 0 to 2
      invariant quants == QuantsUpTo(data, half * 128) && scales == ScalesUpTo(data, half * 128)
    {
      for segment := 0 to 4
        invariant quants == QuantsUpTo(data, half * 128 + segment * 32)
        invariant scales == ScalesUpTo(data, half * 128 + segment * 32)
      {
        quants, scales := UnpackSegment(data, half, segment, quants, scales);
      }
    }
  }

  //////////////////////////////////////////////////////////////////////////////
  // Round trip
  //////////////////////////////////////////////////////////////////////////////

  lemma OrZero(a: byte)
    ensures 0 | a == a
  {
  }

  // Step `step` leaves byte j of lane `lane` of half `half` alone unless it is that lane's
  // first or second segment.
  lemma LowPartElsewhere(stored: seq<byte>, step: nat, half: nat, lane: nat, j: nat)
    requires |stored| == QUANTS && step < 8 && half < 2 && lane < 2 && j < 32
    requires step != half * 4 + lane && step != half * 4 + lane + 2
    ensures LowPart(stored, step, half * 64 + lane * 32 + j) == 0
  {
    var h, s := step / 4, step % 4;
    assert step == h * 4 + s;
    assert h != half || s % 2 != lane;
  }

  lemma {:induction false} LowByteSkips(stored: seq<byte>, from: nat, to: nat, half: nat, lane: nat, j: nat)
    requires |stored| == QUANTS && from <= to <= 8 && half < 2 && lane < 2 && j < 32
    requires !(from <= half * 4 + lane < to) && !(from <= half * 4 + lane + 2 < to)
    ensures LowByte(stored, to, half * 64 + lane * 32 + j) == LowByte(stored, from, half * 64 + lane * 32 + j)
  {
    if from < to {
      LowByteSkips(stored, from, to - 1, half, lane, j);
      LowPartElsewhere(stored, to - 1, half, lane, j);
    }
  }

  lemma LowStep(stored: seq<byte>, half: nat, segment: nat, lane: nat, j: nat)
    requires |stored| == QUANTS && half < 2 && segment < 4 && segment % 2 == lane && j < 32
    ensures LowByte(stored, half * 4 + segment + 1, half * 64 + lane * 32 + j)
         == LowByte(stored, half * 4 + segment, half * 64 + lane * 32 + j)
          | LowField(stored[half * 128 + segment * 32 + j], segment)
  {
    assert (half * 4 + segment) / 4 == half && (half * 4 + segment) % 4 == segment;
  }

  lemma FirstNibble(stored: seq<byte>, half: nat, lane: nat, j: nat)
    requires |stored| == QUANTS && half < 2 && lane < 2 && j < 32
    ensures LowByte(stored, half * 4 + lane + 2, half * 64 + lane * 32 + j)
         == LowField(stored[half * 128 + lane * 32 + j], lane)
  {
    LowByteSkips(stored, 0, half * 4 + lane, half, lane, j);
    LowStep(stored, half, lane, lane, j);
    LowByteSkips(stored, half * 4 + lane + 1, half * 4 + lane + 2, half, lane, j);
    OrZero(LowField(stored[half * 128 + lane * 32 + j], lane));
  }

  // Every byte of the low plane holds exactly the nibbles of segments lane and lane + 2.
  lemma LowByteHoldsTwoNibbles(stored: seq<byte>, half: nat, lane: nat, j: nat)
    requires |stored| == QUANTS && half < 2 && lane < 2 && j < 32
    ensures LowByte(stored, 8, half * 64 + lane * 32 + j)
         == LowField(stored[half * 128 + lane * 32 + j], lane)
          | LowField(stored[half * 128 + (lane + 2) * 32 + j], lane + 2)
  {
    FirstNibble(stored, half, lane, j);
    LowStep(stored, half, lane + 2, lane, j);
    LowByteSkips(stored, half * 4 + lane + 3, 8, half, lane, j);
  }

  lemma HighPartElsewhere(stored: seq<byte>, step: nat, half: nat, j: nat)
    requires |stored| == QUANTS && step < 8 && half < 2 && j < 32
    requires !(half * 4 <= step < half * 4 + 4)
    ensures HighPart(stored, step, half * 32 + j) == 0
  {
    assert step / 4 != half;
  }

  lemma {:induction false} HighByteSkips(stored: seq<byte>, from: nat, to: nat, half: nat, j: nat)
    requires |stored| == QUANTS && from <= to <= 8 && half < 2 && j < 32
    requires to <= half * 4 || from >= half * 4 + 4
    ensures HighByte(stored, to, half * 32 + j) == HighByte(stored, from, half * 32 + j)
  {
    if from < to {
      HighByteSkips(stored, from, to - 1, half, j);
      HighPartElsewhere(stored, to - 1, half, j);
    }
  }

  lemma HighStep(stored: seq<byte>, half: nat, segment: nat, j: nat)
    requires |stored| == QUANTS && half < 2 && segment < 4 && j < 32
    ensures HighByte(stored, half * 4 + segment + 1, half * 32 + j)
         == HighByte(stored, half * 4 + segment, half * 32 + j)
          | HighField(stored[half * 128 + segment * 32 + j], segment)
  {
    assert (half * 4 + segment) / 4 == half && (half * 4 + segment) % 4 == segment;
  }

  lemma FirstField(stored: seq<byte>, half: nat, j: nat)
    requires |stored| == QUANTS && half < 2 && j < 32
    ensures HighByte(stored, half * 4 + 1, half * 32 + j) == HighField(stored[half * 128 + j], 0)
  {
    HighByteSkips(stored, 0, half * 4, half, j);
    HighStep(stored, half, 0, j);
    OrZero(HighField(stored[half * 128 + j], 0));
  }

  lemma FirstTwoFields(stored: seq<byte>, half: nat, j: nat)
    requires |stored| == QUANTS && half < 2 && j < 32
    ensures HighByte(stored, half * 4 + 2, half * 32 + j)
         == HighField(stored[half * 128 + j], 0) | HighField(stored[half * 128 + j + 32], 1)
  {
    FirstField(stored, half, j);
    HighStep(stored, half, 1, j);
  }

  // All four segments of a half share each byte of the high plane, two bits each.
  lemma HighByteHoldsFourFields(stored: seq<byte>, half: nat, j: nat)
    requires |stored| == QUANTS && half < 2 && j < 32
    ensures var base := half * 128 + j;
      HighByte(stored, 8, half * 32 + j)
      == ((HighField(stored[base], 0) | HighField(stored[base + 32], 1))
          | HighField(stored[base + 64], 2)) | HighField(stored[base + 96], 3)
  {
    FirstTwoFields(stored, half, j);
    HighStep(stored, half, 2, j);
    HighStep(stored, half, 3, j);
    HighByteSkips(stored, half * 4 + 4, 8, half, j);
  }

  lemma NibblesDoNotOverlap(a: byte, b: byte, lane: nat)
    requires lane < 2
    ensures var packed := LowField(a, lane) | LowField(b, lane + 2);
            packed & 0x0F == a & 0x0F && (packed >> 4) & 0x0F == b & 0x0F
  {
  }

  lemma FieldsDoNotOverlap(a: byte, b: byte, c: byte, d: byte)
    ensures var packed := ((HighField(a, 0) | HighField(b, 1)) | HighField(c, 2)) | HighField(d, 3);
      && HighBits(packed, 0) == (a >> 4) & 0x03
      && HighBits(packed, 1) == (b >> 4) & 0x03
      && HighBits(packed, 2) == (c >> 4) & 0x03
      && HighBits(packed, 3) == (d >> 4) & 0x03
  {
  }

  lemma SixBitsRejoin(u: byte)
    requires u & 0x3F == u
    ensures (((u >> 4) & 0x03) << 4) | (u & 0x0F) == u
  {
  }

  lemma PackedLowByte(block: Block, half: nat, lane: nat, j: nat)
    requires Valid(block) && half < 2 && lane < 2 && j < 32
    ensures var stored := StoredAll(block.quants);
            Packed(block)[half * 64 + lane * 32 + j]
            == LowField(stored[half * 128 + lane * 32 + j], lane)
             | LowField(stored[half * 128 + (lane + 2) * 32 + j], lane + 2)
  {
    var stored, i := StoredAll(block.quants), half * 64 + lane * 32 + j;
    assert Packed(block)[i] == LowPlane(stored)[i] == LowByte(stored, 8, i);
    LowByteHoldsTwoNibbles(stored, half, lane, j);
  }

  lemma NibbleSurvives(block: Block, half: nat, segment: nat, j: nat)
    requires Valid(block) && half < 2 && segment < 4 && j < 32
    ensures var low := Packed(block)[half * 64 + segment % 2 * 32 + j];
            (if segment < 2 then low & 0x0F else (low >> 4) & 0x0F)
            == StoredAll(block.quants)[half * 128 + segment * 32 + j] & 0x0F
  {
    var stored, lane := StoredAll(block.quants), segment % 2;
    PackedLowByte(block, half, lane, j);
    NibblesDoNotOverlap(stored[half * 128 + lane * 32 + j], stored[half * 128 + (lane + 2) * 32 + j], lane);
  }

  lemma PackedHighByte(block: Block, half: nat, j: nat)
    requires Valid(block) && half < 2 && j < 32
    ensures var stored, base := StoredAll(block.quants), half * 128 + j;
            Packed(block)[128 + half * 32 + j]
            == ((HighField(stored[base], 0) | HighField(stored[base + 32], 1))
                | HighField(stored[base + 64], 2)) | HighField(stored[base + 96], 3)
  {
    var stored, i := StoredAll(block.quants), half * 32 + j;
    assert Packed(block)[128 + i] == HighPlane(stored)[i] == HighByte(stored, 8, i);
    HighByteHoldsFourFields(stored, half, j);
  }

  lemma FieldSurvives(block: Block, half: nat, segment: nat, j: nat)
    requires Valid(block) && half < 2 && segment < 4 && j < 32
    ensures HighBits(Packed(block)[128 + half * 32 + j], segment)
         == (StoredAll(block.quants)[half * 128 + segment * 32 + j] >> 4) & 0x03
  {
    var stored, base := StoredAll(block.quants), half * 128 + j;
    PackedHighByte(block, half, j);
    FieldOfPackedByte(stored[base], stored[base + 32], stored[base + 64], stored[base + 96], segment);
    LaneOf(stored, base, segment);
  }

  lemma LaneOf(stored: seq<byte>, base: nat, segment: nat)
    requires segment < 4 && base + 96 < |stored|
    ensures [stored[base], stored[base + 32], stored[base + 64], stored[base + 96]][segment]
         == stored[base + segment * 32]
  {
  }

  lemma FieldOfPackedByte(a: byte, b: byte, c: byte, d: byte, segment: nat)
    requires segment < 4
    ensures HighBits(((HighField(a, 0) | HighField(b, 1)) | HighField(c, 2)) | HighField(d, 3), segment)
         == ([a, b, c, d][segment] >> 4) & 0x03
  {
    FieldsDoNotOverlap(a, b, c, d);
  }

  lemma StoredSurvives(block: Block, half: nat, segment: nat, j: nat)
    requires Valid(block) && half < 2 && segment < 4 && j < 32
    ensures StoredAt(Packed(block), half, segment, j) == StoredAll(block.quants)[half * 128 + segment * 32 + j]
  {
    NibbleSurvives(block, half, segment, j);
    FieldSurvives(block, half, segment, j);
    StoredRejoins(block.quants, half * 128 + segment * 32 + j);
  }

  lemma StoredRejoins(quants: seq<int>, p: nat)
    requires ValidQuants(quants) && p < QUANTS
    ensures var u := StoredAll(quants)[p]; (((u >> 4) & 0x03) << 4) | (u & 0x0F) == u
  {
    SixBits(quants[p] + 32);
    SixBitsRejoin(StoredAll(quants)[p]);
  }

  lemma StoredValue(block: Block, p: nat)
    requires Valid(block) && p < QUANTS
    ensures FromByte(StoredAll(block.quants)[p]) - 32 == block.quants[p]
  {
    ByteRoundTrip(block.quants[p] + 32);
  }

  lemma QuantSurvives(block: Block, p: nat)
    requires Valid(block) && p < QUANTS
    ensures QuantAt(Packed(block), p) == block.quants[p]
  {
    var half, segment, j := p / 128, p % 128 / 32, p % 32;
    assert p == half * 128 + segment * 32 + j;
    StoredSurvives(block, half, segment, j);
    StoredValue(block, p);
  }

  lemma ScaleSurvives(block: Block, p: nat)
    requires Valid(block) && p < QUANTS
    ensures ScaleAt(Packed(block), p) == block.scales[p / 16]
  {
    var half, segment, j := p / 128, p % 128 / 32, p % 32;
    assert p == half * 128 + segment * 32 + j;
    Position(half, segment, j);
    assert Packed(block)[192..208] == block.scales;
    assert Packed(block)[192 + p / 16] == Packed(block)[192..208][p / 16];
  }

  /** Q6_K packing is undone by unpacking: every quant comes back, with the one of the sixteen scales
      that covers its run of sixteen positions, and the factor is intact. */
  lemma UnpackingInvertsPacking(block: Block, p: nat)
    requires Valid(block) && p < QUANTS
    ensures QuantAt(Packed(block), p) == block.quants[p]
    ensures ScaleAt(Packed(block), p) == block.scales[p / 16]
    ensures Packed(block)[208..] == block.factor
  {
    QuantSurvives(block, p);
    ScaleSurvives(block, p);
  }

  function PackedBlocks(blocks: seq<Block>): (r: seq<seq<byte>>)
    requires forall b :: 0 <= b < |blocks| ==> Valid(blocks[b])
    ensures |r| == |blocks|
  {
    seq(|blocks|, b requires 0 <= b < |blocks| => Packed(blocks[b]))
  }

  /** The same holds of every block of a packed buffer, whatever the number of rows and blocks. */
  lemma UnpackingInvertsPackingOfBuffer(blocks: seq<Block>, b: nat, p: nat)
    requires forall k :: 0 <= k < |blocks| ==> Valid(blocks[k])
    requires b < |blocks| && p < QUANTS
    ensures var data := Flatten(PackedBlocks(blocks));
      && |data| == |blocks| * BLOCK_BYTES
      && Valid(blocks[b])
      && var own := data[b * BLOCK_BYTES..b * BLOCK_BYTES + BLOCK_BYTES];
         QuantAt(own, p) == blocks[b].quants[p] && ScaleAt(own, p) == blocks[b].scales[p / 16]
  {
    BlockOfBuffer(PackedBlocks(blocks), BLOCK_BYTES, b);
    assert PackedBlocks(blocks)[b] == Packed(blocks[b]);
    UnpackingInvertsPacking(blocks[b], p);
  }

  //////////////////////////////////////////////////////////////////////////////
  // The whole block
  //////////////////////////////////////////////////////////////////////////////

  /** What the unpacker's loops return for a packed block: its 256 quants, and for each of them the scale of its run
      of sixteen. */
  lemma UnpackedBlockIsTheBlock(block: Block)
    requires Valid(block)
    ensures QuantsUpTo(Packed(block), QUANTS) == block.quants
    ensures |ScalesUpTo(Packed(block), QUANTS)| == 256
    ensures forall p :: 0 <= p < 256 ==> ScalesUpTo(Packed(block), QUANTS)[p] == block.scales[p / 16]
  {
    forall p | 0 <= p < QUANTS
      ensures QuantAt(Packed(block), p) == block.quants[p] && ScaleAt(Packed(block), p) == block.scales[p / 16]
    {
      UnpackingInvertsPacking(block, p);
    }
  }

  // Packing a block and unpacking it again.
  method PackAndUnpack(block: Block) returns (quants: seq<int>, scales: seq<byte>)
    requires Valid(block)
    ensures quants == block.quants
    ensures |scales| == 256 && forall p :: 0 <= p < 256 ==> scales[p] == block.scales[p / 16]
  {
    var data := PackBlock(block);
    quants, scales := UnpackBlock(data);
    UnpackedBlockIsTheBlock(block);
  }

  // The byte of a quant at its place in half, segment and lane.
  function Unsigned(block: Block, half: nat, segment: nat, j: nat): byte
    requires Valid(block) && half < 2 && segment < 4 && j < 32
  {
    (block.quants[half * 128 + segment * 32 + j] + 32) as byte
  }

  lemma StoredIsUnsigned(block: Block, half: nat, segment: nat, j: nat)
    requires Valid(block) && half < 2 && segment < 4 && j < 32
    ensures StoredAll(block.quants)[half * 128 + segment * 32 + j] == Unsigned(block, half, segment, j)
  {
    ByteValues(0, block.quants[half * 128 + segment * 32 + j] + 32);
  }

  /** Where the bits of a quant lie: its low nibble in the low nibble of the byte shared with segment +
      2, or in the high nibble of the byte shared with segment - 2, its two high bits at 2 * segment of
      the byte shared by its half. */
  lemma NibbleLayout(block: Block, half: nat, j: nat)
    requires Valid(block) && half < 2 && j < 32
    ensures Packed(block)[half * 64 + j] & 0x0F == Unsigned(block, half, 0, j) & 0x0F
    ensures Packed(block)[half * 64 + 32 + j] & 0x0F == Unsigned(block, half, 1, j) & 0x0F
    ensures (Packed(block)[half * 64 + j] >> 4) & 0x0F == Unsigned(block, half, 2, j) & 0x0F
    ensures (Packed(block)[half * 64 + 32 + j] >> 4) & 0x0F == Unsigned(block, half, 3, j) & 0x0F
  {
    forall segment | 0 <= segment < 4
      ensures StoredAll(block.quants)[half * 128 + segment * 32 + j] == Unsigned(block, half, segment, j)
    {
      StoredIsUnsigned(block, half, segment, j);
    }
    NibbleSurvives(block, half, 0, j);
    NibbleSurvives(block, half, 1, j);
    NibbleSurvives(block, half, 2, j);
    NibbleSurvives(block, half, 3, j);
  }

  lemma HighBitLayout(block: Block, half: nat, j: nat)
    requires Valid(block) && half < 2 && j < 32
    ensures var high := Packed(block)[128 + half * 32 + j];
      && high & 0x03 == (Unsigned(block, half, 0, j) >> 4) & 0x03
      && (high >> 2) & 0x03 == (Unsigned(block, half, 1, j) >> 4) & 0x03
      && (high >> 4) & 0x03 == (Unsigned(block, half, 2, j) >> 4) & 0x03
      && (high >> 6) & 0x03 == (Unsigned(block, half, 3, j) >> 4) & 0x03
  {
    forall segment | 0 <= segment < 4
      ensures StoredAll(block.quants)[half * 128 + segment * 32 + j] == Unsigned(block, half, segment, j)
    {
      StoredIsUnsigned(block, half, segment, j);
    }
    FieldSurvives(block, half, 0, j);
    FieldSurvives(block, half, 1, j);
    FieldSurvives(block, half, 2, j);
    FieldSurvives(block, half, 3, j);
  }

  /** The sixteen scales and the factor follow the planes. */
  lemma ScaleLayout(block: Block)
    requires Valid(block)
    ensures Packed(block)[192..208] == block.scales && Packed(block)[208..210] == block.factor
    ensures |Packed(block)| == 210
  {
  }
}
