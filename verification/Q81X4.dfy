// The Q8_1 x4 row format: 32-value blocks in groups of four, each group being four 4-byte headers
// followed by four 32-byte quant runs.
module Q81X4 {
  import opened Bytes

  const GROUP_BYTES := 144

  // A quantized block; the header is the half-precision factor and sum, opaque here.
  datatype Block = Block(header: seq<byte>, quants: seq<byte>)

  predicate Valid(block: Block) {
    |block.header| == 4 && |block.quants| == 32
  }

  function BlockCount(columns: nat): nat {
    (columns + 31) / 32
  }

  function GroupCount(blocks: nat): nat {
    (blocks + 3) / 4
  }

  // The 36 bytes of a block: its header bytes, then its quants.
  datatype Slot = HeaderByte(block: nat, k: nat) | QuantByte(block: nat, k: nat)

  predicate IsSlot(slot: Slot) {
    if slot.HeaderByte? then slot.k < 4 else slot.k < 32
  }

  // Where a block's byte is written in the row.
  function Offset(slot: Slot): nat
    requires IsSlot(slot)
  {
    var group, inner := slot.block / 4, slot.block % 4;
    group * GROUP_BYTES + if slot.HeaderByte? then inner * 4 + slot.k else 16 + inner * 32 + slot.k
  }

  // Whose byte lies at an offset.
  function Owner(offset: nat): (slot: Slot)
    ensures IsSlot(slot)
  {
    var group, within := offset / GROUP_BYTES, offset % GROUP_BYTES;
    if within < 16 then HeaderByte(group * 4 + within / 4, within % 4)
    else QuantByte(group * 4 + (within - 16) / 32, (within - 16) % 32)
  }

  lemma SplitGroups(group: nat, inner: nat, within: nat)
    requires inner < 4 && within < GROUP_BYTES
    ensures (group * 4 + inner) / 4 == group && (group * 4 + inner) % 4 == inner
    ensures (group * GROUP_BYTES + within) / GROUP_BYTES == group
    ensures (group * GROUP_BYTES + within) % GROUP_BYTES == within
  {
  }

  /** The blocks' bytes partition the row: every offset is the byte of exactly one block, and blocks
      of one group stay inside its 144 bytes. */
  lemma SlotsPartitionTheRow(slot: Slot, offset: nat)
    requires IsSlot(slot)
    ensures Owner(Offset(slot)) == slot
    ensures Offset(Owner(offset)) == offset
    ensures Offset(slot) / GROUP_BYTES == slot.block / 4
  {
    OwnerOfOffset(slot);
    OffsetOfOwner(offset);
  }

  lemma OwnerOfOffset(slot: Slot)
    requires IsSlot(slot)
    ensures Owner(Offset(slot)) == slot
    ensures Offset(slot) / GROUP_BYTES == slot.block / 4
  {
    var group, inner := slot.block / 4, slot.block % 4;
    match slot
    case HeaderByte(_, k) =>
      SplitGroups(group, inner, inner * 4 + k);
      assert (inner * 4 + k) / 4 == inner && (inner * 4 + k) % 4 == k;
    case QuantByte(_, k) =>
      SplitGroups(group, inner, 16 + inner * 32 + k);
      assert (inner * 32 + k) / 32 == inner && (inner * 32 + k) % 32 == k;
  }

  lemma OffsetOfOwner(offset: nat)
    ensures Offset(Owner(offset)) == offset
  {
    var group, within := offset / GROUP_BYTES, offset % GROUP_BYTES;
    SplitGroups(group, if within < 16 then within / 4 else (within - 16) / 32, within);
  }

  lemma OffsetInRow(slot: Slot, blocks: nat)
    requires IsSlot(slot) && slot.block < blocks
    ensures Offset(slot) < GroupCount(blocks) * GROUP_BYTES
  {
    assert slot.block / 4 + 1 <= GroupCount(blocks);
    assert (slot.block / 4 + 1) * GROUP_BYTES <= GroupCount(blocks) * GROUP_BYTES;
  }

  predicate ValidRow(blocks: seq<Block>) {
    forall b :: 0 <= b < |blocks| ==> Valid(blocks[b])
  }

  // The byte a slot contributes; slots of absent tail blocks stay zero.
  function SlotByte(blocks: seq<Block>, slot: Slot): byte
    requires ValidRow(blocks) && IsSlot(slot)
  {
    if slot.block >= |blocks| then 0
    else if slot.HeaderByte? then blocks[slot.block].header[slot.k]
    else blocks[slot.block].quants[slot.k]
  }

  function PackedRow(blocks: seq<Block>): (row: seq<byte>)
    requires ValidRow(blocks)
    ensures |row| == GroupCount(|blocks|) * GROUP_BYTES
  {
    seq(GroupCount(|blocks|) * GROUP_BYTES, i requires 0 <= i < GroupCount(|blocks|) * GROUP_BYTES =>
      SlotByte(blocks, Owner(i)))
  }

  // The slots written so far: the first `bytes` header bytes of all blocks and byte `bytes` of the first
  // `headers` blocks; quants of the blocks whose place in the group is below `inner`, or equal to
  // it and among the first `quants`.
  predicate Done(slot: Slot, bytes: nat, headers: nat, inner: nat, quants: nat) {
    if slot.HeaderByte? then slot.k < bytes || (slot.k == bytes && slot.block < headers)
    else slot.block % 4 < inner || (slot.block % 4 == inner && slot.block < quants)
  }

  ghost predicate Written(row: array<byte>, blocks: seq<Block>, bytes: nat, headers: nat, inner: nat, quants: nat)
    requires ValidRow(blocks)
    reads row
  {
    forall i :: 0 <= i < row.Length ==>
      row[i] == if Done(Owner(i), bytes, headers, inner, quants) then SlotByte(blocks, Owner(i)) else 0
  }

  // Header byte k of every block.
  method WriteHeaderByte(row: array<byte>, blocks: seq<Block>, k: nat)
    requires ValidRow(blocks) && k < 4 && row.Length == GroupCount(|blocks|) * GROUP_BYTES
    requires Written(row, blocks, k, 0, 0, 0)
    modifies row
    ensures Written(row, blocks, k + 1, 0, 0, 0)
  {
    for b := 0 to |blocks|
      invariant Written(row, blocks, k, b, 0, 0)
    {
      var slot := HeaderByte(b, k);
      OffsetInRow(slot, |blocks|);
      SlotsPartitionTheRow(slot, 0);
      row[Offset(slot)] := blocks[b].header[k];
      forall i | 0 <= i < row.Length && Owner(i) == slot ensures i == Offset(slot) {
        SlotsPartitionTheRow(slot, i);
      }
    }
  }

  method WriteQuants(row: array<byte>, blocks: seq<Block>, inner: nat, b: nat)
    requires ValidRow(blocks) && b < |blocks| && b % 4 == inner && row.Length == GroupCount(|blocks|) * GROUP_BYTES
    requires Written(row, blocks, 4, 0, inner, b)
    modifies row
    ensures Written(row, blocks, 4, 0, inner, b + 1)
  {
    for k := 0 to 32
      invariant forall i :: 0 <= i < row.Length ==>
        row[i] == if Done(Owner(i), 4, 0, inner, b) || (Owner(i).QuantByte? && Owner(i).block == b && Owner(i).k < k)
                  then SlotByte(blocks, Owner(i)) else 0
    {
      var slot := QuantByte(b, k);
      OffsetInRow(slot, |blocks|);
      SlotsPartitionTheRow(slot, 0);
      row[Offset(slot)] := blocks[b].quants[k];
      forall i | 0 <= i < row.Length && Owner(i) == slot ensures i == Offset(slot) {
        SlotsPartitionTheRow(slot, i);
      }
    }
  }

  // The packing of _pack_q8_1_x4_rows for one row: header byte 0 of all blocks, byte 1 and so on, then the
  // quants of every block at place 0 of its group, place 1, and so on.
  method PackRow(blocks: seq<Block>) returns (row: array<byte>)
    requires ValidRow(blocks)
    ensures row[..] == PackedRow(blocks)
  {
    row := new byte[GroupCount(|blocks|) * GROUP_BYTES](_ => 0);
    for k := 0 to 4
      invariant Written(row, blocks, k, 0, 0, 0)
    {
      WriteHeaderByte(row, blocks, k);
    }
    for inner := 0 to 4
      invariant Written(row, blocks, 4, 0, inner, 0)
    {
      for b := 0 to |blocks|
        invariant Written(row, blocks, 4, 0, inner, b)
      {
        if b % 4 == inner {
          WriteQuants(row, blocks, inner, b);
        }
      }
      forall i | 0 <= i < row.Length
        ensures row[i] == if Done(Owner(i), 4, 0, inner + 1, 0) then SlotByte(blocks, Owner(i)) else 0
      {
      }
    }
    assert row[..] == PackedRow(blocks);
  }

  function ReadBlock(row: seq<byte>, b: nat): Block
    requires forall slot: Slot :: IsSlot(slot) && slot.block == b ==> Offset(slot) < |row|
  {
    Block(seq(4, k requires 0 <= k < 4 => row[Offset(HeaderByte(b, k))]),
          seq(32, k requires 0 <= k < 32 => row[Offset(QuantByte(b, k))]))
  }

  /** Every block can be read back from the packed row, and slots of absent tail blocks are zero. */
  lemma BlocksReadBack(blocks: seq<Block>, b: nat, offset: nat)
    requires ValidRow(blocks)
    ensures b < |blocks| ==>
      && (forall slot: Slot :: IsSlot(slot) && slot.block == b ==> Offset(slot) < |PackedRow(blocks)|)
      && ReadBlock(PackedRow(blocks), b) == blocks[b]
    ensures offset < |PackedRow(blocks)| && Owner(offset).block >= |blocks| ==> PackedRow(blocks)[offset] == 0
  {
    if b < |blocks| {
      forall slot: Slot | IsSlot(slot) && slot.block == b
        ensures Offset(slot) < |PackedRow(blocks)| && PackedRow(blocks)[Offset(slot)] == SlotByte(blocks, slot)
      {
        OffsetInRow(slot, |blocks|);
        SlotsPartitionTheRow(slot, 0);
      }
      var read := ReadBlock(PackedRow(blocks), b);
      assert read.header == blocks[b].header;
      assert read.quants == blocks[b].quants;
    }
  }

  function RowBytes(columns: nat): nat {
    GroupCount(BlockCount(columns)) * GROUP_BYTES
  }

  function PackedRows(rows: seq<seq<Block>>): (r: seq<seq<byte>>)
    requires forall k :: 0 <= k < |rows| ==> ValidRow(rows[k])
    ensures |r| == |rows|
  {
    seq(|rows|, k requires 0 <= k < |rows| => PackedRow(rows[k]))
  }

  /** Rows of equally many blocks are laid out one after the other, so the same holds in the whole buffer. */
  lemma RowsReadBack(rows: seq<seq<Block>>, blocks: nat, r: nat)
    requires forall k :: 0 <= k < |rows| ==> ValidRow(rows[k]) && |rows[k]| == blocks
    requires r < |rows|
    ensures var data, size := Flatten(PackedRows(rows)), GroupCount(blocks) * GROUP_BYTES;
            |data| == BlockOffset(|rows|, size) && HoldsAt(data, BlockOffset(r, size), PackedRows(rows)[r])
  {
    BlockOfBuffer(PackedRows(rows), GroupCount(blocks) * GROUP_BYTES, r);
  }

  /** The byte layout of a row: the four header bytes of block b follow those of its neighbours at the
      start of its 144-byte group, its quants come after all headers of the group. */
  lemma RowLayout(blocks: seq<Block>, b: nat, h: nat, k: nat)
    requires ValidRow(blocks) && b < |blocks| && h < 4 && k < 32
    ensures |PackedRow(blocks)| == (|blocks| + 3) / 4 * 144
    ensures 144 * (b / 4) + 16 + 32 * (b % 4) + k < |PackedRow(blocks)|
    ensures PackedRow(blocks)[144 * (b / 4) + 4 * (b % 4) + h] == blocks[b].header[h]
    ensures PackedRow(blocks)[144 * (b / 4) + 16 + 32 * (b % 4) + k] == blocks[b].quants[k]
  {
    OffsetInRow(QuantByte(b, k), |blocks|);
    SlotsPartitionTheRow(HeaderByte(b, h), 0);
    SlotsPartitionTheRow(QuantByte(b, k), 0);
    assert Offset(HeaderByte(b, h)) == 144 * (b / 4) + 4 * (b % 4) + h;
    assert Offset(QuantByte(b, k)) == 144 * (b / 4) + 16 + 32 * (b % 4) + k;
  }

  /** A row has a block for every started 32 columns. */
  lemma BlocksCoverColumns(columns: nat)
    ensures 32 * BlockCount(columns) >= columns && 32 * BlockCount(columns) < columns + 32
    ensures RowBytes(columns) == (BlockCount(columns) + 3) / 4 * 144
  {
  }
}
