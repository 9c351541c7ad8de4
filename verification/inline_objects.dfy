/**
 * Inline object blocks that describe their own sizes, and reference blocks
 * (src/nnrp/core/packet.py:582-613, 700-716, 1169-1185).
 */
module InlineObjects {
  import opened Outcomes
  import opened Wire
  import opened Alignment
  import opened RecordTables

  /** The numbers `CacheObjectKind` declares. */
  type ObjectKind = kind: nat | 1 <= kind <= 9 witness 1

  const CAMERA_BLOCK: ObjectKind := 1
  const TILE_INDEX_BLOCK: ObjectKind := 2
  const TENSOR_SECTION_TABLE: ObjectKind := 3
  const PAYLOAD_LAYOUT_TEMPLATE: ObjectKind := 6

  /** Flags and reserved fields are always zero in a header object. */
  datatype BlockHeader = BlockHeader(objectKind: ObjectKind, profileId: nat, objectBytes: nat)

  const BLOCK_HEADER_LENGTH: nat := 16

  const BLOCK_LAYOUT: seq<nat> := [2, 2, 2, 2] + [4, 4]

  lemma BlockHeaderSize()
    ensures Size(BLOCK_LAYOUT) == BLOCK_HEADER_LENGTH
  {
    SizeConcat([2, 2, 2, 2], [4, 4]);
  }

  function BlockValues(h: BlockHeader): seq<nat> {
    [h.objectKind, 0, h.profileId, 0, h.objectBytes, 0]
  }

  predicate BlockHeaderFits(h: BlockHeader) {
    Fits(BlockValues(h), BLOCK_LAYOUT)
  }

  function PackBlockHeader(h: BlockHeader): (r: Result<bytes, Fault>)
    ensures r.Ok? ==> |r.value| == BLOCK_HEADER_LENGTH
  {
    BlockHeaderSize();
    if BlockHeaderFits(h) then Ok(PackRecord(BlockValues(h), BLOCK_LAYOUT)) else Err(OutOfRange)
  }

  function UnpackBlockHeader(s: bytes): (r: Result<BlockHeader, Fault>)
    ensures r.Ok? ==> |s| == BLOCK_HEADER_LENGTH
  {
    BlockHeaderSize();
    if |s| != BLOCK_HEADER_LENGTH then Err(BadLength)
    else
      var v := UnpackRecord(s, BLOCK_LAYOUT);
      if !(1 <= v[0] <= 9) then Err(BadEnum)
      else if v[1] != 0 || v[3] != 0 || v[5] != 0 then Err(BadReserved)
      else Ok(BlockHeader(v[0], v[2], v[4]))
  }

  lemma BlockHeaderRoundTrip(h: BlockHeader)
    ensures PackBlockHeader(h).Ok? <==> BlockHeaderFits(h)
    ensures BlockHeaderFits(h) ==> UnpackBlockHeader(PackBlockHeader(h).value) == Ok(h)
  {
    if BlockHeaderFits(h) {
      BlockHeaderSize();
      UnpackPackRecord(BlockValues(h), BLOCK_LAYOUT);
    }
  }

  lemma BlockHeaderReencode(s: bytes)
    requires UnpackBlockHeader(s).Ok?
    ensures PackBlockHeader(UnpackBlockHeader(s).value) == Ok(s)
  {
    BlockHeaderSize();
    PackUnpackRecord(s, BLOCK_LAYOUT);
    assert BlockValues(UnpackBlockHeader(s).value) == UnpackRecord(s, BLOCK_LAYOUT);
  }

  /** One block: its header and its object. */
  datatype Block = Block(header: BlockHeader, payload: bytes)

  function BlockBytes(objectBytes: nat): (total: nat)
    ensures total % 8 == 0 && BLOCK_HEADER_LENGTH + objectBytes <= total < BLOCK_HEADER_LENGTH + objectBytes + 8
  {
    AlignUp(BLOCK_HEADER_LENGTH + objectBytes)
  }

  function PackBlock(b: Block): (r: Result<bytes, Fault>)
    ensures r.Ok? ==> |r.value| == BlockBytes(|b.payload|) && |b.payload| == b.header.objectBytes
  {
    if |b.payload| != b.header.objectBytes then Err(BadLength)
    else
      var header :- PackBlockHeader(b.header);
      Ok(header + b.payload + Padding(BLOCK_HEADER_LENGTH + |b.payload|))
  }

  function UnpackBlock(s: bytes): (r: Result<Block, Fault>) {
    if |s| < BLOCK_HEADER_LENGTH then Err(BadLength)
    else
      var h :- UnpackBlockHeader(s[..BLOCK_HEADER_LENGTH]);
      var payloadEnd := BLOCK_HEADER_LENGTH + h.objectBytes;
      if |s| < payloadEnd then Err(BadLength)
      else if |s| != AlignUp(payloadEnd) then Err(BadLength)
      else if !AllZero(s[payloadEnd..]) then Err(BadPadding)
      else Ok(Block(h, s[BLOCK_HEADER_LENGTH..payloadEnd]))
  }

  predicate BlockPackable(b: Block) {
    |b.payload| == b.header.objectBytes && BlockHeaderFits(b.header)
  }

  /** A block packs exactly when its header states its payload's length in range; it is then read back unchanged. */
  lemma BlockRoundTrip(b: Block)
    ensures PackBlock(b).Ok? <==> BlockPackable(b)
    ensures BlockPackable(b) ==> UnpackBlock(PackBlock(b).value) == Ok(b)
  {
    hide BlockHeaderFits, AlignUp;
    BlockHeaderRoundTrip(b.header);
    if PackBlock(b).Ok? {
      var s := PackBlock(b).value;
      var payloadEnd := BLOCK_HEADER_LENGTH + |b.payload|;
      assert s[..BLOCK_HEADER_LENGTH] == PackBlockHeader(b.header).value;
      assert s[BLOCK_HEADER_LENGTH..payloadEnd] == b.payload;
      assert s[payloadEnd..] == Padding(payloadEnd);
    }
  }

  /** Accepted block bytes are the packing of the block they were read as. */
  lemma BlockReencode(s: bytes)
    requires UnpackBlock(s).Ok?
    ensures PackBlock(UnpackBlock(s).value) == Ok(s)
  {
    hide AlignUp;
    var b := UnpackBlock(s).value;
    var payloadEnd := BLOCK_HEADER_LENGTH + b.header.objectBytes;
    BlockHeaderReencode(s[..BLOCK_HEADER_LENGTH]);
    PaddingUnique(s[payloadEnd..], payloadEnd);
    assert s == s[..BLOCK_HEADER_LENGTH] + b.payload + s[payloadEnd..];
  }

  /** The first block of a region: as many bytes as its header declares. */
  function FirstBlock(region: bytes): (r: Result<nat, Fault>)
    requires region != []
    ensures r.Ok? ==> BLOCK_HEADER_LENGTH <= r.value <= |region|
  {
    if |region| < BLOCK_HEADER_LENGTH then Err(BadLength)
    else
      var h :- UnpackBlockHeader(region[..BLOCK_HEADER_LENGTH]);
      var total := BlockBytes(h.objectBytes);
      if total > |region| then Err(BadLength) else Ok(total)
  }

  function SplitRegion(region: bytes): (r: Result<seq<bytes>, Fault>)
    decreases |region|
  {
    if region == [] then Ok([])
    else
      var total :- FirstBlock(region);
      var rest :- SplitRegion(region[total..]);
      Ok([region[..total]] + rest)
  }

  function UnpackEach(parts: seq<bytes>): (r: Result<seq<Block>, Fault>) {
    if parts == [] then Ok([])
    else
      var first :- UnpackBlock(parts[0]);
      var rest :- UnpackEach(parts[1..]);
      Ok([first] + rest)
  }

  function UnpackBlocks(region: bytes): (r: Result<seq<Block>, Fault>) {
    var parts :- SplitRegion(region);
    UnpackEach(parts)
  }

  function PackBlocks(blocks: seq<Block>): (r: Result<bytes, Fault>) {
    if blocks == [] then Ok([])
    else
      var first :- PackBlock(blocks[0]);
      var rest :- PackBlocks(blocks[1..]);
      Ok(first + rest)
  }

  lemma FirstOfPacked(b: Block, rest: bytes)
    requires BlockPackable(b)
    ensures PackBlock(b).Ok? && PackBlock(b).value != []
    ensures FirstBlock(PackBlock(b).value + rest) == Ok(|PackBlock(b).value|)
  {
    hide BlockHeaderFits, AlignUp;
    BlockRoundTrip(b);
    BlockHeaderRoundTrip(b.header);
    var region := PackBlock(b).value + rest;
    assert region[..BLOCK_HEADER_LENGTH] == PackBlockHeader(b.header).value;
  }

  /** Blocks packed one after the other are split and read back exactly. */
  lemma {:induction false} BlocksRoundTrip(blocks: seq<Block>)
    requires forall b :: b in blocks ==> BlockPackable(b)
    ensures PackBlocks(blocks).Ok?
    ensures UnpackBlocks(PackBlocks(blocks).value) == Ok(blocks)
  {
    hide BlockPackable, PackBlock, FirstBlock, UnpackBlock;
    if blocks != [] {
      var b := blocks[0];
      BlockRoundTrip(b);
      BlocksRoundTrip(blocks[1..]);
      var first, rest := PackBlock(b).value, PackBlocks(blocks[1..]).value;
      FirstOfPacked(b, rest);
      assert (first + rest)[..|first|] == first && (first + rest)[|first|..] == rest;
      var parts := SplitRegion(rest).value;
      assert SplitRegion(first + rest) == Ok([first] + parts);
      assert ([first] + parts)[1..] == parts;
      assert blocks == [b] + blocks[1..];
    }
  }

  /** Splitting cuts a region into consecutive parts that together are the whole of it. */
  lemma {:induction false} SplitPartitions(region: bytes)
    requires SplitRegion(region).Ok?
    ensures Join(SplitRegion(region).value) == region
    decreases |region|
  {
    hide FirstBlock;
    if region != [] {
      var total := FirstBlock(region).value;
      SplitPartitions(region[total..]);
      var rest := SplitRegion(region[total..]).value;
      assert ([region[..total]] + rest)[1..] == rest;
      assert region == region[..total] + region[total..];
    }
  }

  /** An accepted region is the packing of the blocks it was read as, byte for byte. */
  lemma {:induction false} BlocksReencode(region: bytes)
    requires UnpackBlocks(region).Ok?
    ensures PackBlocks(UnpackBlocks(region).value) == Ok(region)
    decreases |region|
  {
    hide FirstBlock, UnpackBlock, PackBlock;
    if region != [] {
      var total := FirstBlock(region).value;
      var parts := SplitRegion(region[total..]).value;
      assert ([region[..total]] + parts)[1..] == parts;
      BlockReencode(region[..total]);
      BlocksReencode(region[total..]);
      var blocks := UnpackBlocks(region).value;
      assert blocks[1..] == UnpackBlocks(region[total..]).value;
      assert region == region[..total] + region[total..];
    }
  }

  lemma SplitStep(region: bytes, cursor: nat)
    requires cursor < |region|
    ensures var first := FirstBlock(region[cursor..]);
            SplitRegion(region[cursor..]) ==
            if first.Err? then Err(first.error)
            else Prepend([region[cursor..cursor + first.value]], SplitRegion(region[cursor + first.value..]))
  {
    hide FirstBlock;
    var here, first := region[cursor..], FirstBlock(region[cursor..]);
    if first.Ok? {
      assert here[..first.value] == region[cursor..cursor + first.value];
      assert here[first.value..] == region[cursor + first.value..];
    }
  }

  lemma NoBlocks(done: seq<bytes>)
    ensures Prepend(done, SplitRegion([])) == Ok(done)
  {
    assert done + [] == done;
  }

  /** Splits a region by walking from block header to block header. */
  method SplitInlineObjectRegion(region: bytes) returns (r: Result<seq<bytes>, Fault>)
    ensures r == SplitRegion(region)
  {
    hide SplitRegion, UnpackBlockHeader, AlignUp;
    var cursor := 0;
    var blocks: seq<bytes> := [];
    assert region[0..] == region;
    PrependNone(SplitRegion(region));
    while cursor < |region|
      invariant 0 <= cursor <= |region|
      invariant SplitRegion(region) == Prepend(blocks, SplitRegion(region[cursor..]))
    {
      SplitStep(region, cursor);
      if |region| - cursor < BLOCK_HEADER_LENGTH {
        return Err(BadLength);
      }
      assert region[cursor..][..BLOCK_HEADER_LENGTH] == region[cursor..cursor + BLOCK_HEADER_LENGTH];
      var header := UnpackBlockHeader(region[cursor..cursor + BLOCK_HEADER_LENGTH]);
      if header.Err? {
        return Err(header.error);
      }
      var totalBytes := AlignUp(BLOCK_HEADER_LENGTH + header.value.objectBytes);
      var end := cursor + totalBytes;
      if end > |region| {
        return Err(BadLength);
      }
      PrependOne(blocks, region[cursor..end], SplitRegion(region[end..]));
      blocks := blocks + [region[cursor..end]];
      cursor := end;
    }
    assert region[cursor..] == [];
    NoBlocks(blocks);
    return Ok(blocks);
  }

  /** A cached object named by its key instead of being carried inline; its flags are always zero. */
  datatype Reference = Reference(objectKind: ObjectKind, cacheNamespace: nat, keyHi: nat, keyLo: nat)

  const REFERENCE_LENGTH: nat := 24

  const REFERENCE_LAYOUT: seq<nat> := [2, 2] + [4] + [8, 8]

  lemma ReferenceSize()
    ensures Size(REFERENCE_LAYOUT) == REFERENCE_LENGTH
  {
    SizeConcat([2, 2] + [4], [8, 8]);
    SizeConcat([2, 2], [4]);
  }

  function ReferenceValues(ref: Reference): seq<nat> {
    [ref.objectKind, 0, ref.cacheNamespace, ref.keyHi, ref.keyLo]
  }

  predicate ReferenceFits(ref: Reference) {
    Fits(ReferenceValues(ref), REFERENCE_LAYOUT)
  }

  function PackReference(ref: Reference): (r: Result<bytes, Fault>)
    ensures r.Ok? ==> |r.value| == REFERENCE_LENGTH
  {
    ReferenceSize();
    if ReferenceFits(ref) then Ok(PackRecord(ReferenceValues(ref), REFERENCE_LAYOUT)) else Err(OutOfRange)
  }

  function UnpackReference(s: bytes): (r: Result<Reference, Fault>) {
    ReferenceSize();
    if |s| != REFERENCE_LENGTH then Err(BadLength)
    else
      var v := UnpackRecord(s, REFERENCE_LAYOUT);
      if !(1 <= v[0] <= 9) then Err(BadEnum)
      else if v[1] != 0 then Err(BadReserved)
      else Ok(Reference(v[0], v[2], v[3], v[4]))
  }

  lemma OneReference(ref: Reference)
    ensures PackReference(ref).Ok? <==> ReferenceFits(ref)
    ensures ReferenceFits(ref) ==> UnpackReference(PackReference(ref).value) == Ok(ref)
  {
    if ReferenceFits(ref) {
      ReferenceSize();
      UnpackPackRecord(ReferenceValues(ref), REFERENCE_LAYOUT);
    }
  }

  function PackReferences(refs: seq<Reference>): (r: Result<bytes, Fault>)
    ensures r.Ok? ==> |r.value| == REFERENCE_LENGTH * |refs|
  {
    PackedAll(refs, REFERENCE_LENGTH, PackReference);
    PackAll(refs, PackReference)
  }

  function UnpackReferences(s: bytes): (r: Result<seq<Reference>, Fault>) {
    if |s| % REFERENCE_LENGTH != 0 then Err(BadLength) else UnpackAll(s, REFERENCE_LENGTH, UnpackReference)
  }

  /** Reference blocks pack exactly when their keys fit, and are read back in order. */
  lemma ReferencesRoundTrip(refs: seq<Reference>)
    ensures PackReferences(refs).Ok? <==> forall ref :: ref in refs ==> ReferenceFits(ref)
    ensures PackReferences(refs).Ok? ==> UnpackReferences(PackReferences(refs).value) == Ok(refs)
  {
    hide ReferenceFits, PackReference, UnpackReference;
    forall ref
      ensures PackReference(ref).Ok? <==> ReferenceFits(ref)
      ensures ReferenceFits(ref) ==> UnpackReference(PackReference(ref).value) == Ok(ref)
    {
      OneReference(ref);
    }
    AllRoundTrip(refs, REFERENCE_LENGTH, PackReference, UnpackReference);
  }
}
