/**
 * Building and validating FRAME_SUBMIT bodies
 * (src/nnrp/core/packet.py:1247-1401 and 1607-1836, src/nnrp/client/transport.py:524-656).
 */
module SubmitBody {
  import opened Outcomes
  import opened Wire
  import opened Bits
  import opened InlineObjects
  import opened Bodies
  import opened Metadata
  import opened TileIndex
  import TensorSections
  import TensorBody
  import PayloadSpans
  import TypedFrames

  // ---------------------------------------------------------------------
  // Validation
  // ---------------------------------------------------------------------

  /** The typed descriptor table agrees with the metadata and carries no tensors. */
  function CheckTyped(kinds: set<nat>, frameCount: nat, r: Regions): (result: Result<(), Fault>) {
    var ds :- TypedFrames.UnpackDescriptors(r.typedDescriptors);
    if |ds| != frameCount then Err(BadCount)
    else if frameCount == 0 && |r.typedPayloads| != 0 then Err(BadLength)
    else if exists d :: d in ds && (d.about.kind == TENSOR || d.about.profileId == TypedFrames.TENSOR_PROFILE)
    then Err(BadKind)
    else if TypedFrames.Kinds(ds) != kinds - {TENSOR} then Err(BadKind)
    else Ok(())
  }

  function InlineOf(blocks: seq<Block>, kind: ObjectKind): seq<Block> {
    if blocks == [] then []
    else (if blocks[0].header.objectKind == kind then [blocks[0]] else []) + InlineOf(blocks[1..], kind)
  }

  function ReferencesOf(refs: seq<Reference>, kind: ObjectKind): seq<Reference> {
    if refs == [] then []
    else (if refs[0].objectKind == kind then [refs[0]] else []) + ReferencesOf(refs[1..], kind)
  }

  function RefKinds(refs: seq<Reference>): seq<ObjectKind> {
    if refs == [] then [] else [refs[0].objectKind] + RefKinds(refs[1..])
  }

  /** One standard slot: its object is inline, referenced or absent; yields the kind when it is referenced. */
  function CheckSlot(mask: nat, blocks: seq<Block>, refs: seq<Reference>, bit: nat, kind: ObjectKind)
    : (r: Result<seq<ObjectKind>, Fault>)
  {
    if |InlineOf(blocks, kind)| > 1 then Err(Duplicate)
    else if |ReferencesOf(refs, kind)| > 1 then Err(Duplicate)
    else if Bit(mask, bit) then
      if InlineOf(blocks, kind) != [] then Err(Unexpected)
      else if |ReferencesOf(refs, kind)| != 1 then Err(Missing)
      else Ok([kind])
    else if ReferencesOf(refs, kind) != [] then Err(Unexpected)
    else Ok([])
  }

  /** The kinds the mask announces, in slot order. */
  function CheckSlots(mask: nat, blocks: seq<Block>, refs: seq<Reference>): (r: Result<seq<ObjectKind>, Fault>) {
    var camera :- CheckSlot(mask, blocks, refs, 0, CAMERA_BLOCK);
    var tiles :- CheckSlot(mask, blocks, refs, 1, TILE_INDEX_BLOCK);
    var sections :- CheckSlot(mask, blocks, refs, 2, TENSOR_SECTION_TABLE);
    var template :- CheckSlot(mask, blocks, refs, 3, PAYLOAD_LAYOUT_TEMPLATE);
    Ok(camera + tiles + sections + template)
  }

  predicate HasStandardInline(blocks: seq<Block>) {
    InlineOf(blocks, CAMERA_BLOCK) != [] || InlineOf(blocks, TILE_INDEX_BLOCK) != []
    || InlineOf(blocks, TENSOR_SECTION_TABLE) != [] || InlineOf(blocks, PAYLOAD_LAYOUT_TEMPLATE) != []
  }

  function CheckCamera(m: Submit, blocks: seq<Block>): (r: Result<(), Fault>) {
    var camera := InlineOf(blocks, CAMERA_BLOCK);
    if camera != [] then if camera[0].header.objectBytes != m.cameraBytes then Err(BadLength) else Ok(())
    else if m.cameraBytes != 0 then Err(Missing)
    else Ok(())
  }

  function CheckTiles(m: Submit, blocks: seq<Block>): (r: Result<(), Fault>) {
    var tiles := InlineOf(blocks, TILE_INDEX_BLOCK);
    var referenced := Bit(m.objectRefMask, 1);
    if tiles != [] then
      if tiles[0].header.objectBytes != m.tileIndexBytes then Err(BadLength)
      else
        var _ :- UnpackTileIndex(tiles[0].payload, m.tileIndexMode, m.tileCount, m.tileBaseId);
        if referenced && m.tileIndexBytes != 0 then Err(Unexpected) else Ok(())
    else if m.tileCount > 0 && !referenced then Err(Missing)
    else if referenced && m.tileIndexBytes != 0 then Err(Unexpected)
    else Ok(())
  }

  function CheckSections(m: Submit, blocks: seq<Block>): (r: Result<(), Fault>) {
    var sections := InlineOf(blocks, TENSOR_SECTION_TABLE);
    if sections != [] then
      var _ :- TensorBody.UnpackTensorBody(sections[0].payload, 0, m.sectionCount, Some(m.tileCount));
      Ok(())
    else if m.sectionCount > 0 && !Bit(m.objectRefMask, 2) then Err(Missing)
    else Ok(())
  }

  /** The object contract of FRAME_SUBMIT over decoded blocks and references. */
  function CheckObjects(m: Submit, blocks: seq<Block>, refs: seq<Reference>): (r: Result<(), Fault>) {
    if m.objectRefMask >= 16 then Err(BadFlags)
    else if m.submitMode.Inline? && (m.objectRefMask != 0 || refs != []) then Err(Unexpected)
    else
      var expected :- CheckSlots(m.objectRefMask, blocks, refs);
      if m.submitMode.Reference? && HasStandardInline(blocks) then Err(Unexpected)
      else if RefKinds(refs) != expected then Err(BadOrder)
      else
        var _ :- CheckCamera(m, blocks);
        var _ :- CheckTiles(m, blocks);
        CheckSections(m, blocks)
  }

  function ValidateSubmit(m: Submit, body: bytes): (result: Result<Regions, Fault>) {
    var r :- UnpackBody(body);
    var _ :- CheckTyped(m.payloadKinds, m.payloadFrameCount, r);
    var blocks :- UnpackBlocks(r.inlineObjects);
    var refs :- UnpackReferences(r.references);
    var _ :- CheckObjects(m, blocks, refs);
    Ok(r)
  }

  // ---------------------------------------------------------------------
  // Tensor submits
  // ---------------------------------------------------------------------

  /** What an application submits; a reference replaces the inline object of its kind. */
  datatype TensorInput = TensorInput(
    context: Submit,
    tileIds: seq<int>,
    sections: seq<TensorSections.SectionData>,
    camera: bytes,
    tileIndexMode: Mode,
    tileBaseId: int,
    cameraRef: Option<Reference>,
    tileRef: Option<Reference>,
    sectionRef: Option<Reference>)

  function Count(b: bool): nat {
    if b then 1 else 0
  }

  function ReferenceCount(t: TensorInput): nat {
    Count(t.cameraRef.Some?) + Count(t.tileRef.Some?) + Count(t.sectionRef.Some?)
  }

  function InlineCount(t: TensorInput): nat {
    Count(t.camera != [] && t.cameraRef.None?) + Count(t.tileIds != [] && t.tileRef.None?)
    + Count(t.sections != [] && t.sectionRef.None?)
  }

  /** The mode the client chooses for its input. */
  function ChooseMode(t: TensorInput): SubmitMode {
    if ReferenceCount(t) != 0 then if InlineCount(t) != 0 then Mixed else SubmitMode.Reference else Inline
  }

  function ProvidedMask(t: TensorInput): nat {
    Count(t.cameraRef.Some?) + 2 * Count(t.tileRef.Some?) + 4 * Count(t.sectionRef.Some?)
  }

  predicate RightKind(ref: Option<Reference>, kind: ObjectKind) {
    ref.Some? ==> ref.value.objectKind == kind
  }

  function BlockOf(kind: ObjectKind, payload: bytes): Block {
    Block(BlockHeader(kind, 0, |payload|), payload)
  }

  /** A block if its content is to travel inline. */
  function MaybeBlock(present: bool, kind: ObjectKind, payload: bytes): seq<Block> {
    if present then [BlockOf(kind, payload)] else []
  }

  function MaybeRef(ref: Option<Reference>): seq<Reference> {
    if ref.Some? then [ref.value] else []
  }

  function InlineBlocks(t: TensorInput, tileIndex: bytes, sectionTable: bytes): seq<Block> {
    MaybeBlock(t.camera != [] && t.cameraRef.None?, CAMERA_BLOCK, t.camera)
    + MaybeBlock(t.tileIds != [] && t.tileRef.None?, TILE_INDEX_BLOCK, tileIndex)
    + MaybeBlock(t.sections != [] && t.sectionRef.None?, TENSOR_SECTION_TABLE, sectionTable)
  }

  function References(t: TensorInput): seq<Reference> {
    MaybeRef(t.cameraRef) + MaybeRef(t.tileRef) + MaybeRef(t.sectionRef)
  }

  /** The metadata the builder writes for a tensor submit. */
  function SubmitMetadata(t: TensorInput, mode: SubmitMode, mask: nat, tileIndex: bytes): Submit
    requires t.tileBaseId >= 0
  {
    MetadataOfSize(t, mode, mask, |tileIndex|)
  }

  function MetadataOfSize(t: TensorInput, mode: SubmitMode, mask: nat, tileIndexSize: nat): Submit
    requires t.tileBaseId >= 0
  {
    t.context.(
      tileCount := |t.tileIds|,
      sectionCount := |t.sections|,
      tileIndexMode := t.tileIndexMode,
      tileBaseId := t.tileBaseId,
      cameraBytes := if t.cameraRef.Some? then 0 else |t.camera|,
      tileIndexBytes := if t.tileRef.Some? then 0 else tileIndexSize,
      submitMode := mode,
      objectRefMask := mask,
      payloadKinds := {TENSOR},
      payloadFrameCount := 0)
  }

  /** The tensor branch of the packet builder, for any mode and mask. */
  function BuildSubmit(t: TensorInput, mode: SubmitMode, mask: nat): (r: Result<(Submit, bytes), Fault>) {
    var provided := ProvidedMask(t);
    if !RightKind(t.cameraRef, CAMERA_BLOCK) || !RightKind(t.tileRef, TILE_INDEX_BLOCK)
       || !RightKind(t.sectionRef, TENSOR_SECTION_TABLE) then Err(BadKind)
    else if mode.Inline? && mask != 0 then Err(Unexpected)
    else if mode.Inline? && provided != 0 then Err(Unexpected)
    else if mode.Reference? && provided == 0 then Err(Missing)
    else if mode.Mixed? && mask == 0 then Err(Missing)
    else
      var packed :- TensorBody.PackSections(t.sections, |t.tileIds|, None);
      var tileIndex :- PackTileIndex(t.tileIds, t.tileIndexMode, t.tileBaseId);
      if mode.Reference? && InlineCount(t) != 0 then Err(Missing)
      else
        var blocks := InlineBlocks(t, tileIndex, TensorBody.PackRegion(packed));
        var inlineRegion :- PackBlocks(blocks);
        var referenceRegion :- PackReferences(References(t));
        var body :- PackBody(Regions(inlineRegion, referenceRegion, [], [], [], []));
        if !mode.Inline? && mask != provided then Err(BadFlags)
        else if t.tileBaseId < 0 then Err(OutOfRange)
        else
          var m := SubmitMetadata(t, mode, mask, tileIndex);
          if !SubmitConsistent(m) then Err(BadEnum)
          else
            var _ :- ValidateSubmit(m, body);
            var _ :- PackSubmit(m);
            Ok((m, body))
  }

  function BuildTensorSubmit(t: TensorInput): (r: Result<(Submit, bytes), Fault>) {
    BuildSubmit(t, ChooseMode(t), ProvidedMask(t))
  }

  /** Legal sections and tile ids, and references of the right kind. */
  predicate LegalContent(t: TensorInput) {
    && TensorBody.LegalSections(t.sections, |t.tileIds|)
    && Legal(t.tileIds, t.tileIndexMode, t.tileBaseId)
    && t.tileBaseId >= 0
    && RightKind(t.cameraRef, CAMERA_BLOCK)
    && RightKind(t.tileRef, TILE_INDEX_BLOCK)
    && RightKind(t.sectionRef, TENSOR_SECTION_TABLE)
  }

  /** Inputs a client may submit: legal content whose sizes are in range. */
  predicate LegalInput(t: TensorInput) {
    LegalContent(t) && SizesFit(t)
  }

  /** The bytes of an inline block, if there is one. */
  function MaybeSize(present: bool, size: nat): nat {
    if present then BlockBytes(size) else 0
  }

  /** The size of the inline object region. */
  function InlineSize(t: TensorInput): nat
    requires InU16(t.tileIds)
  {
    MaybeSize(t.camera != [] && t.cameraRef.None?, |t.camera|)
    + MaybeSize(t.tileIds != [] && t.tileRef.None?, PackedSize(t.tileIds, t.tileIndexMode))
    + MaybeSize(t.sections != [] && t.sectionRef.None?, TensorBody.RegionSize(0, t.sections))
  }

  /** The inline region, the reference keys and the metadata fields are in range. */
  predicate SizesFit(t: TensorInput)
    requires t.tileBaseId >= 0 && InU16(t.tileIds)
  {
    && InlineSize(t) < U32
    && (forall ref :: ref in References(t) ==> ReferenceFits(ref))
    && SubmitFits(MetadataOfSize(t, ChooseMode(t), ProvidedMask(t), PackedSize(t.tileIds, t.tileIndexMode)))
  }

  /** Every part of the packet packs. */
  predicate PartsPack(t: TensorInput)
    requires t.tileBaseId >= 0
  {
    var packed := TensorBody.PackSections(t.sections, |t.tileIds|, None);
    var tileIndex := PackTileIndex(t.tileIds, t.tileIndexMode, t.tileBaseId);
    packed.Ok? && tileIndex.Ok? &&
    var blocks := InlineBlocks(t, tileIndex.value, TensorBody.PackRegion(packed.value));
    && (forall b :: b in blocks ==> BlockPackable(b))
    && (forall ref :: ref in References(t) ==> ReferenceFits(ref))
    && PackBlocks(blocks).Ok? && PackReferences(References(t)).Ok?
    && RegionsFit(Regions(PackBlocks(blocks).value, PackReferences(References(t)).value, [], [], [], []))
    && SubmitFits(SubmitMetadata(t, ChooseMode(t), ProvidedMask(t), tileIndex.value))
  }

  function BlocksSize(blocks: seq<Block>): nat {
    if blocks == [] then 0 else BlockBytes(|blocks[0].payload|) + BlocksSize(blocks[1..])
  }

  lemma {:induction false} BlocksSizeConcat(a: seq<Block>, b: seq<Block>)
    ensures BlocksSize(a + b) == BlocksSize(a) + BlocksSize(b)
  {
    if a == [] {
      assert a + b == b;
    } else {
      BlocksSizeConcat(a[1..], b);
      assert (a + b)[1..] == a[1..] + b && (a + b)[0] == a[0];
    }
  }

  lemma {:induction false} PackedBlocksSize(blocks: seq<Block>)
    requires PackBlocks(blocks).Ok?
    ensures |PackBlocks(blocks).value| == BlocksSize(blocks)
  {
    hide PackBlock;
    if blocks != [] {
      PackedBlocksSize(blocks[1..]);
    }
  }

  lemma {:induction false} LargeBlock(blocks: seq<Block>, b: Block)
    requires b in blocks
    ensures |b.payload| < BlocksSize(blocks)
  {
    if b != blocks[0] {
      assert b in blocks[1..];
      LargeBlock(blocks[1..], b);
    }
  }

  lemma PackableIff(kind: ObjectKind, payload: bytes)
    ensures BlockPackable(BlockOf(kind, payload)) <==> |payload| < U32
  {
    Capacities();
    var v, l := BlockValues(BlockOf(kind, payload).header), BLOCK_LAYOUT;
    assert |v| == |l| == 6 && l[0] == l[1] == l[2] == l[3] == 2 && l[4] == l[5] == 4;
    assert v[4] == |payload|;
    hide Capacity;
  }

  /** Blocks of total size within u32 pack. */
  lemma BlocksPackable(blocks: seq<Block>)
    requires forall b :: b in blocks ==> b == BlockOf(b.header.objectKind, b.payload)
    requires BlocksSize(blocks) < U32
    ensures forall b :: b in blocks ==> BlockPackable(b)
  {
    hide BlocksSize, BlockPackable;
    forall b | b in blocks
      ensures BlockPackable(b)
    {
      LargeBlock(blocks, b);
      PackableIff(b.header.objectKind, b.payload);
    }
  }

  lemma InlineBlocksSize(t: TensorInput, tileIndex: bytes, table: bytes)
    ensures BlocksSize(InlineBlocks(t, tileIndex, table)) ==
            MaybeSize(t.camera != [] && t.cameraRef.None?, |t.camera|)
            + MaybeSize(t.tileIds != [] && t.tileRef.None?, |tileIndex|)
            + MaybeSize(t.sections != [] && t.sectionRef.None?, |table|)
  {
    var camera := MaybeBlock(t.camera != [] && t.cameraRef.None?, CAMERA_BLOCK, t.camera);
    var tiles := MaybeBlock(t.tileIds != [] && t.tileRef.None?, TILE_INDEX_BLOCK, tileIndex);
    var sections := MaybeBlock(t.sections != [] && t.sectionRef.None?, TENSOR_SECTION_TABLE, table);
    BlocksSizeConcat(camera + tiles, sections);
    BlocksSizeConcat(camera, tiles);
    OneBlockSize(camera);
    OneBlockSize(tiles);
    OneBlockSize(sections);
    hide BlocksSize, BlockBytes;
  }

  lemma OneBlockSize(blocks: seq<Block>)
    requires |blocks| <= 1
    ensures BlocksSize(blocks) == if blocks == [] then 0 else BlockBytes(|blocks[0].payload|)
  {
    if blocks != [] {
      assert BlocksSize(blocks[1..]) == 0;
    }
  }

  /** For legal content, numbers in range are all it takes for every part to pack. */
  lemma SizesFitIff(t: TensorInput)
    requires LegalContent(t)
    ensures SizesFit(t) <==> PartsPack(t)
  {
    hide TensorBody.PackSections, TensorBody.PackRegion, PackTileIndex, Legal, PackBlocks, PackReferences,
      BlockPackable, ReferenceFits, RegionsFit, SubmitFits, PackedSize, BlocksSize, InlineBlocks,
      TensorBody.LegalSections, MetadataOfSize;
    PackedSizeAgrees(t.tileIds, t.tileIndexMode, t.tileBaseId);
    TensorBody.PackSectionsAccepts(t.sections, |t.tileIds|, None);
    var packed := TensorBody.PackSections(t.sections, |t.tileIds|, None).value;
    var tileIndex := PackTileIndex(t.tileIds, t.tileIndexMode, t.tileBaseId).value;
    var table := TensorBody.PackRegion(packed);
    TableSize(t);
    InlineBlocksSize(t, tileIndex, table);
    var blocks := InlineBlocks(t, tileIndex, table);
    OwnBlocks(t, tileIndex, table);
    ReferencesRoundTrip(References(t));
    if BlocksSize(blocks) < U32 {
      BlocksPackable(blocks);
      BlocksRoundTrip(blocks);
    }
    if PackBlocks(blocks).Ok? && PackReferences(References(t)).Ok? {
      PackedBlocksSize(blocks);
      TwoRegionsFit(PackBlocks(blocks).value, References(t));
    }
  }

  lemma TableSize(t: TensorInput)
    requires TensorBody.PackSections(t.sections, |t.tileIds|, None).Ok?
    ensures |TensorBody.PackRegion(TensorBody.PackSections(t.sections, |t.tileIds|, None).value)| ==
            TensorBody.RegionSize(0, t.sections)
  {
    hide TensorBody.PackSections;
    TensorBody.RegionBytes(t.sections, |t.tileIds|, None, 0);
  }

  lemma OwnBlocks(t: TensorInput, tileIndex: bytes, table: bytes)
    ensures forall b :: b in InlineBlocks(t, tileIndex, table) ==> b == BlockOf(b.header.objectKind, b.payload)
  {
  }

  lemma TwoRegionsFit(inlineRegion: bytes, refs: seq<Reference>)
    requires PackReferences(refs).Ok? && |refs| <= 3
    ensures RegionsFit(Regions(inlineRegion, PackReferences(refs).value, [], [], [], [])) <==> |inlineRegion| < U32
  {
    hide PackReferences;
    Capacities();
    var v, l := PreludeValues(Regions(inlineRegion, PackReferences(refs).value, [], [], [], [])), PRELUDE_LAYOUT;
    assert |v| == |l| == 8 && l[0] == l[1] == l[2] == l[3] == l[4] == l[5] == l[6] == l[7] == 4;
    assert v[0] == |inlineRegion|;
    hide Capacity;
  }

  lemma {:induction false} InlineOfConcat(a: seq<Block>, b: seq<Block>, kind: ObjectKind)
    ensures InlineOf(a + b, kind) == InlineOf(a, kind) + InlineOf(b, kind)
  {
    if a == [] {
      assert a + b == b;
    } else {
      InlineOfConcat(a[1..], b, kind);
      assert (a + b)[1..] == a[1..] + b && (a + b)[0] == a[0];
      assert InlineOf(a + b, kind) ==
             (if a[0].header.objectKind == kind then [a[0]] else []) + InlineOf(a[1..] + b, kind);
    }
  }

  lemma {:induction false} ReferencesOfConcat(a: seq<Reference>, b: seq<Reference>, kind: ObjectKind)
    ensures ReferencesOf(a + b, kind) == ReferencesOf(a, kind) + ReferencesOf(b, kind)
  {
    if a == [] {
      assert a + b == b;
    } else {
      ReferencesOfConcat(a[1..], b, kind);
      assert (a + b)[1..] == a[1..] + b && (a + b)[0] == a[0];
      assert ReferencesOf(a + b, kind) ==
             (if a[0].objectKind == kind then [a[0]] else []) + ReferencesOf(a[1..] + b, kind);
    }
  }

  lemma {:induction false} RefKindsConcat(a: seq<Reference>, b: seq<Reference>)
    ensures RefKinds(a + b) == RefKinds(a) + RefKinds(b)
  {
    if a == [] {
      assert a + b == b;
    } else {
      RefKindsConcat(a[1..], b);
      assert (a + b)[1..] == a[1..] + b;
    }
  }

  /** Up to three blocks of the three tensor kinds: each kind holds its own block, if any. */
  lemma InlineOfParts(camera: seq<Block>, tiles: seq<Block>, sections: seq<Block>)
    requires |camera| <= 1 && (camera != [] ==> camera[0].header.objectKind == CAMERA_BLOCK)
    requires |tiles| <= 1 && (tiles != [] ==> tiles[0].header.objectKind == TILE_INDEX_BLOCK)
    requires |sections| <= 1 && (sections != [] ==> sections[0].header.objectKind == TENSOR_SECTION_TABLE)
    ensures var blocks := camera + tiles + sections;
            && InlineOf(blocks, CAMERA_BLOCK) == camera
            && InlineOf(blocks, TILE_INDEX_BLOCK) == tiles
            && InlineOf(blocks, TENSOR_SECTION_TABLE) == sections
            && InlineOf(blocks, PAYLOAD_LAYOUT_TEMPLATE) == []
  {
    hide InlineOf;
    OwnKind(camera, CAMERA_BLOCK);
    OwnKind(tiles, TILE_INDEX_BLOCK);
    OwnKind(sections, TENSOR_SECTION_TABLE);
    InlineOfThree(camera, tiles, sections, CAMERA_BLOCK);
    InlineOfThree(camera, tiles, sections, TILE_INDEX_BLOCK);
    InlineOfThree(camera, tiles, sections, TENSOR_SECTION_TABLE);
    InlineOfThree(camera, tiles, sections, PAYLOAD_LAYOUT_TEMPLATE);
    assert camera + [] + [] == camera && [] + tiles + [] == tiles && [] + [] + sections == sections;
  }

  lemma InlineOfThree(a: seq<Block>, b: seq<Block>, c: seq<Block>, kind: ObjectKind)
    ensures InlineOf(a + b + c, kind) == InlineOf(a, kind) + InlineOf(b, kind) + InlineOf(c, kind)
  {
    InlineOfConcat(a + b, c, kind);
    InlineOfConcat(a, b, kind);
  }

  lemma OwnKind(part: seq<Block>, own: ObjectKind)
    requires |part| <= 1 && (part != [] ==> part[0].header.objectKind == own)
    ensures forall kind: ObjectKind :: InlineOf(part, kind) == if kind == own then part else []
  {
    if part != [] {
      assert part[1..] == [] && part == [part[0]];
    }
  }

  lemma ReferencesOfThree(a: seq<Reference>, b: seq<Reference>, c: seq<Reference>, kind: ObjectKind)
    ensures ReferencesOf(a + b + c, kind) == ReferencesOf(a, kind) + ReferencesOf(b, kind) + ReferencesOf(c, kind)
  {
    hide ReferencesOf;
    ReferencesOfConcat(a + b, c, kind);
    ReferencesOfConcat(a, b, kind);
  }

  lemma ReferencesOfParts(camera: seq<Reference>, tiles: seq<Reference>, sections: seq<Reference>)
    requires |camera| <= 1 && (camera != [] ==> camera[0].objectKind == CAMERA_BLOCK)
    requires |tiles| <= 1 && (tiles != [] ==> tiles[0].objectKind == TILE_INDEX_BLOCK)
    requires |sections| <= 1 && (sections != [] ==> sections[0].objectKind == TENSOR_SECTION_TABLE)
    ensures var refs := camera + tiles + sections;
            && ReferencesOf(refs, CAMERA_BLOCK) == camera
            && ReferencesOf(refs, TILE_INDEX_BLOCK) == tiles
            && ReferencesOf(refs, TENSOR_SECTION_TABLE) == sections
            && ReferencesOf(refs, PAYLOAD_LAYOUT_TEMPLATE) == []
            && RefKinds(refs) == RefKinds(camera) + RefKinds(tiles) + RefKinds(sections)
  {
    hide ReferencesOf, RefKinds;
    ReferencesOfThree(camera, tiles, sections, CAMERA_BLOCK);
    ReferencesOfThree(camera, tiles, sections, TILE_INDEX_BLOCK);
    ReferencesOfThree(camera, tiles, sections, TENSOR_SECTION_TABLE);
    ReferencesOfThree(camera, tiles, sections, PAYLOAD_LAYOUT_TEMPLATE);
    OwnReference(camera, CAMERA_BLOCK);
    OwnReference(tiles, TILE_INDEX_BLOCK);
    OwnReference(sections, TENSOR_SECTION_TABLE);
    RefKindsConcat(camera + tiles, sections);
    RefKindsConcat(camera, tiles);
  }

  lemma OwnReference(part: seq<Reference>, own: ObjectKind)
    requires |part| <= 1 && (part != [] ==> part[0].objectKind == own)
    ensures forall kind: ObjectKind :: ReferencesOf(part, kind) == if kind == own then part else []
    ensures RefKinds(part) == if part == [] then [] else [own]
  {
    if part != [] {
      assert part[1..] == [] && part == [part[0]];
    }
  }

  /** The bits of the mask the client provides. */
  lemma MaskBits(camera: bool, tiles: bool, sections: bool)
    ensures var mask := Count(camera) + 2 * Count(tiles) + 4 * Count(sections);
            && mask < 16
            && (mask == 0 <==> !camera && !tiles && !sections)
            && Bit(mask, 0) == camera && Bit(mask, 1) == tiles && Bit(mask, 2) == sections && !Bit(mask, 3)
  {
    var mask := Count(camera) + 2 * Count(tiles) + 4 * Count(sections);
    assert mask / 2 == Count(tiles) + 2 * Count(sections);
    assert mask / 4 == Count(sections);
    assert Bit(mask, 1) == Bit(mask / 2, 0);
    assert Bit(mask, 2) == Bit(mask / 2, 1) == Bit(mask / 4, 0);
    assert Bit(mask, 3) == Bit(mask / 2, 2) == Bit(mask / 4, 1) == Bit(mask / 8, 0);
  }

  /** The slots of a legal input: each object is inline or referenced, never both. */
  lemma SlotsAccepted(t: TensorInput, tileIndex: bytes, sectionTable: bytes)
    requires RightKind(t.cameraRef, CAMERA_BLOCK) && RightKind(t.tileRef, TILE_INDEX_BLOCK)
    requires RightKind(t.sectionRef, TENSOR_SECTION_TABLE)
    ensures CheckSlots(ProvidedMask(t), InlineBlocks(t, tileIndex, sectionTable), References(t))
            == Ok(RefKinds(References(t)))
  {
    hide InlineOf, ReferencesOf, RefKinds, Bit;
    MaskBits(t.cameraRef.Some?, t.tileRef.Some?, t.sectionRef.Some?);
    InlineOfParts(
      MaybeBlock(t.camera != [] && t.cameraRef.None?, CAMERA_BLOCK, t.camera),
      MaybeBlock(t.tileIds != [] && t.tileRef.None?, TILE_INDEX_BLOCK, tileIndex),
      MaybeBlock(t.sections != [] && t.sectionRef.None?, TENSOR_SECTION_TABLE, sectionTable));
    ReferencesOfParts(MaybeRef(t.cameraRef), MaybeRef(t.tileRef), MaybeRef(t.sectionRef));
    OwnReference(MaybeRef(t.cameraRef), CAMERA_BLOCK);
    OwnReference(MaybeRef(t.tileRef), TILE_INDEX_BLOCK);
    OwnReference(MaybeRef(t.sectionRef), TENSOR_SECTION_TABLE);
    var mask, blocks, refs := ProvidedMask(t), InlineBlocks(t, tileIndex, sectionTable), References(t);
    assert CheckSlot(mask, blocks, refs, 0, CAMERA_BLOCK) == Ok(RefKinds(MaybeRef(t.cameraRef)));
    assert CheckSlot(mask, blocks, refs, 1, TILE_INDEX_BLOCK) == Ok(RefKinds(MaybeRef(t.tileRef)));
    assert CheckSlot(mask, blocks, refs, 2, TENSOR_SECTION_TABLE) == Ok(RefKinds(MaybeRef(t.sectionRef)));
    assert CheckSlot(mask, blocks, refs, 3, PAYLOAD_LAYOUT_TEMPLATE) == Ok([]);
    assert RefKinds(refs) + [] == RefKinds(refs);
  }

  /** The objects of a legal input satisfy the receiver's object contract. */
  lemma ObjectsAccepted(t: TensorInput)
    requires LegalContent(t)
    ensures TensorBody.PackSections(t.sections, |t.tileIds|, None).Ok?
    ensures PackTileIndex(t.tileIds, t.tileIndexMode, t.tileBaseId).Ok?
    ensures var packed := TensorBody.PackSections(t.sections, |t.tileIds|, None).value;
            var tileIndex := PackTileIndex(t.tileIds, t.tileIndexMode, t.tileBaseId).value;
            var blocks := InlineBlocks(t, tileIndex, TensorBody.PackRegion(packed));
            && CheckObjects(SubmitMetadata(t, ChooseMode(t), ProvidedMask(t), tileIndex), blocks, References(t)).Ok?
            && InlineOf(blocks, TILE_INDEX_BLOCK) ==
               MaybeBlock(t.tileIds != [] && t.tileRef.None?, TILE_INDEX_BLOCK, tileIndex)
            && InlineOf(blocks, TENSOR_SECTION_TABLE) ==
               MaybeBlock(t.sections != [] && t.sectionRef.None?, TENSOR_SECTION_TABLE, TensorBody.PackRegion(packed))
  {
    hide Legal, TensorBody.LegalSections, TensorBody.PackSections, PackTileIndex, UnpackTileIndex, CheckObjects,
      TensorBody.UnpackTensorBody, TensorSections.PayloadSlices, InlineBlocks, InlineOf, References;
    TensorBody.RegionRoundTrip(t.sections, |t.tileIds|);
    TileIndexRoundTrip(t.tileIds, t.tileIndexMode, t.tileBaseId);
    EmptyTiles(t);
    ObjectsPass(t, PackTileIndex(t.tileIds, t.tileIndexMode, t.tileBaseId).value,
                TensorBody.PackRegion(TensorBody.PackSections(t.sections, |t.tileIds|, None).value));
  }

  /** Objects that decode satisfy the contract under the mode and the mask the client chose. */
  lemma ObjectsPass(t: TensorInput, tileIndex: bytes, table: bytes)
    requires RightKind(t.cameraRef, CAMERA_BLOCK) && RightKind(t.tileRef, TILE_INDEX_BLOCK)
    requires RightKind(t.sectionRef, TENSOR_SECTION_TABLE) && t.tileBaseId >= 0
    requires UnpackTileIndex(tileIndex, t.tileIndexMode, |t.tileIds|, t.tileBaseId).Ok?
    requires TensorBody.UnpackTensorBody(table, 0, |t.sections|, Some(|t.tileIds|)).Ok?
    requires t.tileIds == [] ==> tileIndex == []
    ensures var blocks := InlineBlocks(t, tileIndex, table);
            && CheckObjects(SubmitMetadata(t, ChooseMode(t), ProvidedMask(t), tileIndex), blocks, References(t)).Ok?
            && InlineOf(blocks, TILE_INDEX_BLOCK) ==
               MaybeBlock(t.tileIds != [] && t.tileRef.None?, TILE_INDEX_BLOCK, tileIndex)
            && InlineOf(blocks, TENSOR_SECTION_TABLE) ==
               MaybeBlock(t.sections != [] && t.sectionRef.None?, TENSOR_SECTION_TABLE, table)
  {
    hide InlineOf, ReferencesOf, RefKinds, Bit, CheckSlots, UnpackTileIndex, TensorBody.UnpackTensorBody, CheckTiles,
      CheckSections, CheckCamera, HasStandardInline;
    MaskBits(t.cameraRef.Some?, t.tileRef.Some?, t.sectionRef.Some?);
    SlotsAccepted(t, tileIndex, table);
    InlineOfParts(
      MaybeBlock(t.camera != [] && t.cameraRef.None?, CAMERA_BLOCK, t.camera),
      MaybeBlock(t.tileIds != [] && t.tileRef.None?, TILE_INDEX_BLOCK, tileIndex),
      MaybeBlock(t.sections != [] && t.sectionRef.None?, TENSOR_SECTION_TABLE, table));
    var m, blocks := SubmitMetadata(t, ChooseMode(t), ProvidedMask(t), tileIndex), InlineBlocks(t, tileIndex, table);
    TilesPass(t, tileIndex, m, blocks);
    SectionsPass(t, table, m, blocks);
    CameraPasses(t, m, blocks);
    ModeFits(t, m, blocks);
  }

  lemma TilesPass(t: TensorInput, tileIndex: bytes, m: Submit, blocks: seq<Block>)
    requires t.tileBaseId >= 0 && m == SubmitMetadata(t, ChooseMode(t), ProvidedMask(t), tileIndex)
    requires InlineOf(blocks, TILE_INDEX_BLOCK) ==
             MaybeBlock(t.tileIds != [] && t.tileRef.None?, TILE_INDEX_BLOCK, tileIndex)
    requires UnpackTileIndex(tileIndex, t.tileIndexMode, |t.tileIds|, t.tileBaseId).Ok?
    requires Bit(ProvidedMask(t), 1) == t.tileRef.Some? && (t.tileIds == [] ==> tileIndex == [])
    ensures CheckTiles(m, blocks).Ok?
  {
    hide InlineOf, UnpackTileIndex, Bit;
  }

  lemma SectionsPass(t: TensorInput, table: bytes, m: Submit, blocks: seq<Block>)
    requires m.sectionCount == |t.sections| && m.tileCount == |t.tileIds| && m.objectRefMask == ProvidedMask(t)
    requires InlineOf(blocks, TENSOR_SECTION_TABLE) ==
             MaybeBlock(t.sections != [] && t.sectionRef.None?, TENSOR_SECTION_TABLE, table)
    requires TensorBody.UnpackTensorBody(table, 0, |t.sections|, Some(|t.tileIds|)).Ok?
    requires Bit(ProvidedMask(t), 2) == t.sectionRef.Some?
    ensures CheckSections(m, blocks).Ok?
  {
    hide InlineOf, TensorBody.UnpackTensorBody, Bit;
  }

  lemma CameraPasses(t: TensorInput, m: Submit, blocks: seq<Block>)
    requires m.cameraBytes == if t.cameraRef.None? then |t.camera| else 0
    requires InlineOf(blocks, CAMERA_BLOCK) ==
             MaybeBlock(t.camera != [] && t.cameraRef.None?, CAMERA_BLOCK, t.camera)
    ensures CheckCamera(m, blocks).Ok?
  {
    hide InlineOf;
  }

  /** The mode the client chose allows what the body holds. */
  lemma ModeFits(t: TensorInput, m: Submit, blocks: seq<Block>)
    requires m.submitMode == ChooseMode(t) && m.objectRefMask == ProvidedMask(t)
    requires InlineOf(blocks, CAMERA_BLOCK) == MaybeBlock(t.camera != [] && t.cameraRef.None?, CAMERA_BLOCK, t.camera)
    requires InlineOf(blocks, PAYLOAD_LAYOUT_TEMPLATE) == []
    requires t.tileIds != [] && t.tileRef.None? <==> InlineOf(blocks, TILE_INDEX_BLOCK) != []
    requires t.sections != [] && t.sectionRef.None? <==> InlineOf(blocks, TENSOR_SECTION_TABLE) != []
    requires ProvidedMask(t) == 0 <==> t.cameraRef.None? && t.tileRef.None? && t.sectionRef.None?
    ensures m.submitMode.Inline? ==> m.objectRefMask == 0 && References(t) == []
    ensures m.submitMode.Reference? ==> !HasStandardInline(blocks)
  {
    hide InlineOf;
  }

  /** With no tile ids the tile index is empty in every mode. */
  lemma EmptyTiles(t: TensorInput)
    requires Legal(t.tileIds, t.tileIndexMode, t.tileBaseId)
    ensures t.tileIds == [] ==> PackTileIndex(t.tileIds, t.tileIndexMode, t.tileBaseId) == Ok([])
  {
  }

  /** A body with no typed frames satisfies the typed contract of tensor-only metadata. */
  lemma NoTypedFrames(r: Regions)
    requires r.typedDescriptors == [] && r.typedPayloads == []
    ensures CheckTyped({TENSOR}, 0, r).Ok?
  {
    assert TypedFrames.Kinds([]) == {TENSOR} - {TENSOR};
  }

  /** Regions made of packed blocks and references pass the checks every body passes. */
  lemma RegionsSound(blocks: seq<Block>, refs: seq<Reference>)
    requires forall b :: b in blocks ==> BlockPackable(b)
    requires forall ref :: ref in refs ==> ReferenceFits(ref)
    ensures PackBlocks(blocks).Ok? && PackReferences(refs).Ok?
    ensures UnpackBlocks(PackBlocks(blocks).value) == Ok(blocks)
    ensures UnpackReferences(PackReferences(refs).value) == Ok(refs)
    ensures CheckRegions(Regions(PackBlocks(blocks).value, PackReferences(refs).value, [], [], [], [])).Ok?
  {
    hide BlockPackable, ReferenceFits, PackBlocks, PackReferences, UnpackBlocks, UnpackReferences;
    BlocksRoundTrip(blocks);
    ReferencesRoundTrip(refs);
  }

  lemma {:induction false} PackedBlocksPackable(blocks: seq<Block>)
    requires PackBlocks(blocks).Ok?
    ensures forall b :: b in blocks ==> BlockPackable(b)
  {
    hide BlockPackable, PackBlock;
    if blocks != [] {
      BlockRoundTrip(blocks[0]);
      PackedBlocksPackable(blocks[1..]);
      assert blocks == [blocks[0]] + blocks[1..];
    }
  }

  lemma BuiltInputLegal(t: TensorInput)
    requires BuildTensorSubmit(t).Ok?
    ensures LegalInput(t)
  {
    hide InlineOf, ReferencesOf, RefKinds, Bit, Legal, TensorBody.LegalSections, TensorBody.PackSections, PackTileIndex,
      SubmitConsistent, PackBlocks, PackReferences, BlockPackable, ReferenceFits, ValidateSubmit,
      PackBody, RegionsFit, SubmitValues, Fits, TensorBody.PackRegion, SizesFit;
    TensorBody.PackSectionsAccepts(t.sections, |t.tileIds|, None);
    TileIndexRoundTrip(t.tileIds, t.tileIndexMode, t.tileBaseId);
    var packed := TensorBody.PackSections(t.sections, |t.tileIds|, None).value;
    var tileIndex := PackTileIndex(t.tileIds, t.tileIndexMode, t.tileBaseId).value;
    var blocks := InlineBlocks(t, tileIndex, TensorBody.PackRegion(packed));
    PackedBlocksPackable(blocks);
    ReferencesRoundTrip(References(t));
    BodyRoundTrip(Regions(PackBlocks(blocks).value, PackReferences(References(t)).value, [], [], [], []));
    assert PartsPack(t);
    SizesFitIff(t);
  }

  /** The tile index and the section table of an input; empty when it does not pack. */
  function TileIndexOf(t: TensorInput): bytes {
    var packed := PackTileIndex(t.tileIds, t.tileIndexMode, t.tileBaseId);
    if packed.Ok? then packed.value else []
  }

  function TableOf(t: TensorInput): bytes {
    var packed := TensorBody.PackSections(t.sections, |t.tileIds|, None);
    if packed.Ok? then TensorBody.PackRegion(packed.value) else []
  }

  /** A packed body whose objects satisfy the contract is accepted and cut into its regions. */
  lemma BodyValidates(m: Submit, blocks: seq<Block>, refs: seq<Reference>)
    requires forall b :: b in blocks ==> BlockPackable(b)
    requires forall ref :: ref in refs ==> ReferenceFits(ref)
    requires PackBlocks(blocks).Ok? && PackReferences(refs).Ok?
    requires RegionsFit(Regions(PackBlocks(blocks).value, PackReferences(refs).value, [], [], [], []))
    requires CheckObjects(m, blocks, refs).Ok? && m.payloadKinds == {TENSOR} && m.payloadFrameCount == 0
    ensures var regions := Regions(PackBlocks(blocks).value, PackReferences(refs).value, [], [], [], []);
            && PackBody(regions).Ok? && ValidateSubmit(m, PackBody(regions).value) == Ok(regions)
            && UnpackBlocks(regions.inlineObjects) == Ok(blocks)
            && UnpackReferences(regions.references) == Ok(refs)
  {
    hide PackBlocks, PackReferences, BlockPackable, ReferenceFits, CheckObjects, CheckTyped, CheckRegions,
      PackBody, UnpackBody, UnpackBlocks, UnpackReferences, RegionsFit;
    RegionsSound(blocks, refs);
    var regions := Regions(PackBlocks(blocks).value, PackReferences(refs).value, [], [], [], []);
    BodyRoundTrip(regions);
    NoTypedFrames(regions);
  }

  /** What the receiver makes of the packet of an input: its metadata, its body, the blocks and references in it. */
  ghost predicate Received(t: TensorInput, m: Submit, body: bytes)
    requires t.tileBaseId >= 0
  {
    && m == SubmitMetadata(t, ChooseMode(t), ProvidedMask(t), TileIndexOf(t))
    && PackSubmit(m).Ok? && UnpackSubmit(PackSubmit(m).value) == Ok(m)
    && ValidateSubmit(m, body).Ok?
    && UnpackBlocks(ValidateSubmit(m, body).value.inlineObjects) == Ok(InlineBlocks(t, TileIndexOf(t), TableOf(t)))
    && UnpackReferences(ValidateSubmit(m, body).value.references) == Ok(References(t))
  }

  /** The body of a legal input, cut into regions and decoded. */
  lemma LegalInputBuilds(t: TensorInput)
    requires LegalInput(t)
    ensures BuildTensorSubmit(t).Ok?
    ensures Received(t, BuildTensorSubmit(t).value.0, BuildTensorSubmit(t).value.1)
  {
    hide Legal, TensorBody.LegalSections, TensorBody.PackSections, PackTileIndex, PackBlocks, PackReferences,
      BlockPackable, ReferenceFits, CheckObjects, PackBody, UnpackBlocks, RegionsFit, SubmitConsistent, SubmitValues,
      Fits, UnpackSubmit, TensorBody.PackRegion, SizesFit, InlineBlocks, References, ValidateSubmit, UnpackReferences,
      MetadataOfSize, InlineOf;
    MaskBits(t.cameraRef.Some?, t.tileRef.Some?, t.sectionRef.Some?);
    SizesFitIff(t);
    ObjectsAccepted(t);
    var m := SubmitMetadata(t, ChooseMode(t), ProvidedMask(t), TileIndexOf(t));
    KindsOf(t, ChooseMode(t), ProvidedMask(t), |TileIndexOf(t)|);
    BodyValidates(m, InlineBlocks(t, TileIndexOf(t), TableOf(t)), References(t));
    SubmitRoundTrip(m);
  }

  lemma KindsOf(t: TensorInput, mode: SubmitMode, mask: nat, size: nat)
    requires t.tileBaseId >= 0
    ensures var m := MetadataOfSize(t, mode, mask, size);
            m.payloadKinds == {TENSOR} && m.payloadFrameCount == 0
  {
  }

  /**
   The builder succeeds on a tensor submit exactly when the input is legal:
   the mode and mask the client chose never trip one of its checks, and the
   receiver's validation accepts the body.
   */
  lemma SubmitAccepted(t: TensorInput)
    ensures BuildTensorSubmit(t).Ok? <==> LegalInput(t)
    ensures LegalInput(t) ==> Received(t, BuildTensorSubmit(t).value.0, BuildTensorSubmit(t).value.1)
  {
    hide LegalContent, SizesFit, BuildTensorSubmit, Received;
    if LegalInput(t) {
      LegalInputBuilds(t);
    }
    if BuildTensorSubmit(t).Ok? {
      BuiltInputLegal(t);
    }
  }

  // ---------------------------------------------------------------------
  // Decoding
  // ---------------------------------------------------------------------

  /** The last block of a kind, as a dictionary keyed by kind keeps it. */
  function LastOf(blocks: seq<Block>, kind: ObjectKind): Option<Block> {
    var matches := InlineOf(blocks, kind);
    if matches == [] then None else Some(matches[|matches| - 1])
  }

  /** Reads tile index and sections out of a body's inline objects. */
  function UnpackCurrentTensorBody(r: Regions, sectionCount: nat, tileCount: nat)
    : (result: Result<TensorBody.BodyView, Fault>)
  {
    var blocks :- UnpackBlocks(r.inlineObjects);
    var tiles := LastOf(blocks, TILE_INDEX_BLOCK);
    var table := LastOf(blocks, TENSOR_SECTION_TABLE);
    var tileIndex := if tiles.Some? then tiles.value.payload else [];
    if table.None? then Ok(TensorBody.BodyView(tileIndex, []))
    else
      var sections :- TensorBody.UnpackTensorBody(table.value.payload, 0, sectionCount, Some(tileCount));
      Ok(TensorBody.BodyView(tileIndex, sections.sections))
  }

  /**
   A receiver that decodes an accepted tensor submit gets exactly the inline
   tile ids and, section by section, the payload of every tile.  The body
   holds one block for each inline object and one reference for each other:
   a block of kind 1 with the camera bytes, of kind 2 with the tile index, of
   kind 3 with the section table, and nothing for an object that is absent.
   */
  lemma SubmitRoundTrips(t: TensorInput)
    requires LegalInput(t)
    ensures BuildTensorSubmit(t).Ok?
    ensures var (m, body) := BuildTensorSubmit(t).value;
            && ValidateSubmit(m, body).Ok?
            && UnpackCurrentTensorBody(ValidateSubmit(m, body).value, m.sectionCount, m.tileCount).Ok?
            && var view := UnpackCurrentTensorBody(ValidateSubmit(m, body).value, m.sectionCount, m.tileCount).value;
            && (t.tileRef.None? ==>
                  UnpackTileIndex(view.tileIndex, m.tileIndexMode, m.tileCount, m.tileBaseId) == Ok(t.tileIds))
            && (t.sectionRef.None? ==>
                  && |view.sections| == |t.sections|
                  && forall i :: 0 <= i < |t.sections| ==>
                       && view.sections[i].desc.roleId == t.sections[i].roleId
                       && TensorSections.PayloadSlices(view.sections[i]) == Ok(t.sections[i].tilePayloads))
            && UnpackBlocks(ValidateSubmit(m, body).value.inlineObjects) == Ok(
                 (if t.camera != [] && t.cameraRef.None? then [Block(BlockHeader(1, 0, |t.camera|), t.camera)] else [])
                 + (if t.tileIds != [] && t.tileRef.None?
                    then [Block(BlockHeader(2, 0, |view.tileIndex|), view.tileIndex)] else [])
                 + (if t.sections != [] && t.sectionRef.None?
                    then [Block(BlockHeader(3, 0, |TableOf(t)|), TableOf(t))] else []))
            && UnpackReferences(ValidateSubmit(m, body).value.references) == Ok(
                 (if t.cameraRef.Some? then [t.cameraRef.value] else [])
                 + (if t.tileRef.Some? then [t.tileRef.value] else [])
                 + (if t.sectionRef.Some? then [t.sectionRef.value] else []))
  {
    hide BuildTensorSubmit, ValidateSubmit, UnpackSubmit, PackSubmit, UnpackBlocks, InlineOf, Legal, SizesFit,
      UnpackReferences, TensorBody.LegalSections, TensorBody.PackSections, PackTileIndex, UnpackTileIndex,
      TensorBody.UnpackTensorBody,
      TensorSections.PayloadSlices, TensorBody.PackRegion;
    LegalInputBuilds(t);
    ObjectsAccepted(t);
    TileIndexRoundTrip(t.tileIds, t.tileIndexMode, t.tileBaseId);
    EmptyTiles(t);
    TensorBody.RegionRoundTrip(t.sections, |t.tileIds|);
  }

  /**
   The metadata of a built submit: counts and sizes are those of the input, a referenced object has no inline bytes,
   the mask has one bit for each reference, and the mode says which of inline and referenced objects there are.
   Every other field is the caller's.
   */
  lemma SubmitDescribed(t: TensorInput)
    requires BuildTensorSubmit(t).Ok?
    ensures var m := BuildTensorSubmit(t).value.0;
            && m.tileCount == |t.tileIds| && m.sectionCount == |t.sections|
            && m.tileIndexMode == t.tileIndexMode && m.tileBaseId == t.tileBaseId
            && m.cameraBytes == (if t.cameraRef.None? then |t.camera| else 0)
            && m.tileIndexBytes == (if t.tileRef.None? then |TileIndexOf(t)| else 0)
            && m.objectRefMask == (if t.cameraRef.Some? then 1 else 0) + (if t.tileRef.Some? then 2 else 0)
                                  + (if t.sectionRef.Some? then 4 else 0)
            && (m.submitMode.Inline? <==> t.cameraRef.None? && t.tileRef.None? && t.sectionRef.None?)
            && (m.submitMode.Mixed? <==>
                && (t.cameraRef.Some? || t.tileRef.Some? || t.sectionRef.Some?)
                && ((t.cameraRef.None? && t.camera != []) || (t.tileRef.None? && t.tileIds != [])
                    || (t.sectionRef.None? && t.sections != [])))
            && m.payloadKinds == {0} && m.payloadFrameCount == 0
    ensures ContextKept(BuildTensorSubmit(t).value.0, t.context)
            && BuildTensorSubmit(t).value.0.inputProfile == t.context.inputProfile
            && SameGeometry(BuildTensorSubmit(t).value.0, t.context)
  {
    hide BuildTensorSubmit, LegalInput, PackSubmit, UnpackSubmit, ValidateSubmit, UnpackBlocks, UnpackReferences;
    SubmitAccepted(t);
  }

  /** The fields no builder computes. */
  ghost predicate ContextKept(m: Submit, context: Submit) {
    && m.frameClass == context.frameClass && m.latencyBudgetMs == context.latencyBudgetMs
    && m.targetFpsX100 == context.targetFpsX100 && m.retryOfFrame == context.retryOfFrame
    && m.operationId == context.operationId && m.budgetPolicy == context.budgetPolicy
    && m.lossTolerance == context.lossTolerance && m.dependencyFrameId == context.dependencyFrameId
  }

  ghost predicate SameGeometry(m: Submit, context: Submit) {
    && m.srcWidth == context.srcWidth && m.srcHeight == context.srcHeight
    && m.tileWidth == context.tileWidth && m.tileHeight == context.tileHeight
  }

  /** Regions that passed the checks hold typed frames that unpack, under the bitmap the metadata names. */
  lemma AcceptedTyped(kinds: set<nat>, frameCount: nat, r: Regions)
    requires CheckRegions(r).Ok? && CheckTyped(kinds, frameCount, r).Ok?
    ensures TypedFrames.UnpackTypedFrames(r.typedDescriptors, r.typedPayloads, kinds).Ok?
    ensures |TypedFrames.UnpackTypedFrames(r.typedDescriptors, r.typedPayloads, kinds).value| == frameCount
  {
    hide UnpackBlocks, UnpackReferences, TypedFrames.UnpackDescriptors, PayloadSpans.ValidateOffsets, TypedFrames.Kinds;
  }

  /** What reading the tensor of a body gives when at most one block of each kind is there. */
  lemma ReadsObjects(r: Regions, sectionCount: nat, tileCount: nat)
    requires UnpackBlocks(r.inlineObjects).Ok?
    requires var blocks := UnpackBlocks(r.inlineObjects).value;
             && |InlineOf(blocks, TILE_INDEX_BLOCK)| <= 1 && |InlineOf(blocks, TENSOR_SECTION_TABLE)| <= 1
             && var tables := InlineOf(blocks, TENSOR_SECTION_TABLE);
             tables != [] ==>
               TensorBody.UnpackTensorBody(tables[0].payload, 0, sectionCount, Some(tileCount)).Ok?
    ensures var blocks := UnpackBlocks(r.inlineObjects).value;
            && UnpackCurrentTensorBody(r, sectionCount, tileCount).Ok?
            && var view := UnpackCurrentTensorBody(r, sectionCount, tileCount).value;
            && var tiles := InlineOf(blocks, TILE_INDEX_BLOCK);
            && view.tileIndex == (if tiles == [] then [] else tiles[0].payload)
            && |view.sections| == (if InlineOf(blocks, TENSOR_SECTION_TABLE) == [] then 0 else sectionCount)
            && TensorBody.SoundSections(view.sections, tileCount)
  {
    hide UnpackBlocks, InlineOf, TensorBody.UnpackTensorBody, TensorBody.SoundSection;
    var tables := InlineOf(UnpackBlocks(r.inlineObjects).value, TENSOR_SECTION_TABLE);
    if tables != [] {
      TensorBody.ParsedBody(tables[0].payload, sectionCount, tileCount);
    }
  }

  /** Without a block the ids can be read only as a dense range, or when there are none. */
  lemma NoBlockReads(mode: Mode, tileCount: nat, tileBase: int)
    ensures UnpackTileIndex([], mode, tileCount, tileBase).Ok? <==> mode.DenseRange? || tileCount == 0
    ensures UnpackTileIndex([], mode, 0, tileBase) == Ok([])
    ensures UnpackTileIndex([], DenseRange, tileCount, tileBase) == Ok(Range(tileBase, tileCount))
  {
    assert DecodeAll([], 2) == [] && Sums([], 0) == [];
  }

  /** The slots of an accepted submit: nothing is both inline and referenced, and each kind occurs at most once. */
  lemma AcceptedSlots(m: Submit, blocks: seq<Block>, refs: seq<Reference>)
    requires CheckObjects(m, blocks, refs).Ok?
    ensures CheckSlot(m.objectRefMask, blocks, refs, 1, TILE_INDEX_BLOCK).Ok?
    ensures CheckSlot(m.objectRefMask, blocks, refs, 2, TENSOR_SECTION_TABLE).Ok?
    ensures CheckTiles(m, blocks).Ok? && CheckSections(m, blocks).Ok?
  {
    hide CheckSlot, RefKinds, HasStandardInline, CheckCamera, CheckTiles, CheckSections;
  }

  /**
   Whatever bytes a peer sent, an accepted FRAME_SUBMIT can be decoded: its typed frames unpack, its sections are read
   with increasing roles and one payload per tile, and its tile ids are read exactly when the index is inline, or the
   mode needs none, or there are no tiles. Sections that are referenced are not read at all.
   */
  lemma AcceptedSubmitDecodes(m: Submit, body: bytes)
    requires ValidateSubmit(m, body).Ok?
    ensures var r := ValidateSubmit(m, body).value;
            && TypedFrames.UnpackTypedFrames(r.typedDescriptors, r.typedPayloads, m.payloadKinds).Ok?
            && UnpackCurrentTensorBody(r, m.sectionCount, m.tileCount).Ok?
            && var view := UnpackCurrentTensorBody(r, m.sectionCount, m.tileCount).value;
            && TensorBody.SoundSections(view.sections, m.tileCount)
            && |view.sections| == (if Bit(m.objectRefMask, 2) then 0 else m.sectionCount)
            && (UnpackTileIndex(view.tileIndex, m.tileIndexMode, m.tileCount, m.tileBaseId).Ok? <==>
                !Bit(m.objectRefMask, 1) || m.tileIndexMode.DenseRange? || m.tileCount == 0)
  {
    hide UnpackBlocks, InlineOf, ReferencesOf, UnpackReferences, TensorBody.UnpackTensorBody, CheckRegions,
      CheckObjects, CheckTyped, UnpackTileIndex, TensorBody.SoundSections, Bit, UnpackCurrentTensorBody,
      TypedFrames.UnpackTypedFrames;
    var r := ValidateSubmit(m, body).value;
    UnpackedChecks(body);
    AcceptedTyped(m.payloadKinds, m.payloadFrameCount, r);
    AcceptedSlots(m, UnpackBlocks(r.inlineObjects).value, UnpackReferences(r.references).value);
    ReadsObjects(r, m.sectionCount, m.tileCount);
    NoBlockReads(m.tileIndexMode, m.tileCount, m.tileBaseId);
  }

  lemma UnpackedChecks(body: bytes)
    requires UnpackBody(body).Ok?
    ensures CheckRegions(UnpackBody(body).value).Ok?
  {
    hide CheckRegions, UnpackRecord, Cut;
  }
}
