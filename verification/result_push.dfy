/**
 * Building, validating and reading RESULT_PUSH
 * (src/nnrp/core/packet.py:1260-1271, 1404-1476, 1839-1954, 2321-2435).
 */
module ResultBody {
  import opened Outcomes
  import opened Wire
  import opened InlineObjects
  import opened Bodies
  import opened Metadata
  import opened TileIndex
  import opened SubmitBody
  import opened MixedBodies
  import TensorSections
  import TensorBody
  import TypedFrames

  /** Lexicographic order of reference blocks by kind, namespace and key. */
  predicate Before(a: Reference, b: Reference) {
    a.objectKind < b.objectKind
    || (a.objectKind == b.objectKind
        && (a.cacheNamespace < b.cacheNamespace
            || (a.cacheNamespace == b.cacheNamespace
                && (a.keyHi < b.keyHi || (a.keyHi == b.keyHi && a.keyLo < b.keyLo)))))
  }

  function CheckOrder(refs: seq<Reference>): (r: Result<(), Fault>) {
    if |refs| <= 1 then Ok(())
    else if !Before(refs[0], refs[1]) then Err(BadOrder)
    else CheckOrder(refs[1..])
  }

  /** Comparing neighbours orders all references, so no key occurs twice. */
  lemma {:induction false} CheckOrderSorts(refs: seq<Reference>)
    ensures CheckOrder(refs).Ok? <==> forall i, j :: 0 <= i < j < |refs| ==> Before(refs[i], refs[j])
  {
    if |refs| > 1 {
      CheckOrderSorts(refs[1..]);
      if CheckOrder(refs).Ok? {
        forall i, j | 0 <= i < j < |refs|
          ensures Before(refs[i], refs[j])
        {
          if i > 0 {
            assert Before(refs[1..][i - 1], refs[1..][j - 1]);
          } else if j > 1 {
            assert Before(refs[1..][0], refs[1..][j - 1]);
          }
        }
      } else if Before(refs[0], refs[1]) {
        var i, j :| 0 <= i < j < |refs[1..]| && !Before(refs[1..][i], refs[1..][j]);
        assert !Before(refs[i + 1], refs[j + 1]);
      }
    }
  }

  /** RESULT_PUSH metadata names no index mode: bytes mean raw ids, none mean a dense range. */
  function ImpliedMode(m: Push): Mode {
    if m.tileIndexBytes != 0 then RawU16 else DenseRange
  }

  function CheckPushTiles(m: Push, blocks: seq<Block>, refs: seq<Reference>): (r: Result<(), Fault>) {
    var tiles := InlineOf(blocks, TILE_INDEX_BLOCK);
    var tileRefs := ReferencesOf(refs, TILE_INDEX_BLOCK);
    if |tileRefs| > 1 then Err(Duplicate)
    else if tiles != [] && tileRefs != [] then Err(Unexpected)
    else if tiles != [] then
      if tiles[0].header.objectBytes != m.tileIndexBytes then Err(BadLength)
      else
        var _ :- UnpackTileIndex(tiles[0].payload, ImpliedMode(m), m.tileCount, m.tileBaseId);
        Ok(())
    else if m.tileCount > 0 && tileRefs == [] then Err(Missing)
    else if tileRefs != [] && m.tileIndexBytes != 0 then Err(Unexpected)
    else Ok(())
  }

  function CheckPushSections(m: Push, blocks: seq<Block>, refs: seq<Reference>): (r: Result<(), Fault>) {
    var sections := InlineOf(blocks, TENSOR_SECTION_TABLE);
    var sectionRefs := ReferencesOf(refs, TENSOR_SECTION_TABLE);
    if |sectionRefs| > 1 then Err(Duplicate)
    else if sections != [] && sectionRefs != [] then Err(Unexpected)
    else if sections != [] then
      var _ :- TensorBody.UnpackTensorBody(sections[0].payload, 0, m.sectionCount, Some(m.tileCount));
      Ok(())
    else if m.sectionCount > 0 && sectionRefs == [] then Err(Missing)
    else Ok(())
  }

  function CheckPushObjects(m: Push, blocks: seq<Block>, refs: seq<Reference>): (r: Result<(), Fault>) {
    var _ :- CheckOrder(refs);
    if |InlineOf(blocks, TILE_INDEX_BLOCK)| > 1 || |InlineOf(blocks, TENSOR_SECTION_TABLE)| > 1 then Err(Duplicate)
    else
      var _ :- CheckPushTiles(m, blocks, refs);
      CheckPushSections(m, blocks, refs)
  }

  function ValidatePush(m: Push, body: bytes): (result: Result<Regions, Fault>) {
    var r :- UnpackBody(body);
    if !CoverageAgrees(m) then Err(BadCount)
    else
      var _ :- CheckTyped(m.payloadKinds, m.payloadFrameCount, r);
      var blocks :- UnpackBlocks(r.inlineObjects);
      var refs :- UnpackReferences(r.references);
      var _ :- CheckPushObjects(m, blocks, refs);
      Ok(r)
  }

  /** What a server pushes: tiles, sections and how many tiles are covered (by default all of them) or dropped. */
  datatype PushInput = PushInput(
    context: Push,
    tileIds: seq<int>,
    sections: seq<TensorSections.SectionData>,
    tileIndexMode: Mode,
    tileBaseId: int,
    covered: Option<int>,
    dropped: int)

  function Covered(p: PushInput): int {
    if p.covered.Some? then p.covered.value else |p.tileIds|
  }

  function PushBlocks(p: PushInput, tileIndex: bytes, sectionTable: bytes): seq<Block> {
    [] + MaybeBlock(p.tileIds != [], TILE_INDEX_BLOCK, tileIndex)
    + MaybeBlock(p.sections != [], TENSOR_SECTION_TABLE, sectionTable)
  }

  function PushMetadata(p: PushInput, tileIndex: bytes, kinds: set<nat>, frameCount: nat): Push
    requires p.tileBaseId >= 0 && Covered(p) >= 0 && p.dropped >= 0
  {
    PushOfSize(p, |tileIndex|, kinds, frameCount)
  }

  function PushOfSize(p: PushInput, tileIndexSize: nat, kinds: set<nat>, frameCount: nat): Push
    requires p.tileBaseId >= 0 && Covered(p) >= 0 && p.dropped >= 0
  {
    p.context.(
      sectionCount := |p.sections|,
      tileCount := |p.tileIds|,
      tileBaseId := p.tileBaseId,
      tileIndexBytes := tileIndexSize,
      coveredTileCount := Covered(p),
      droppedTileCount := p.dropped,
      payloadKinds := {TENSOR} + kinds,
      payloadFrameCount := frameCount)
  }

  /** The steps the tensor and the mixed builder share; typed frames, if any, are packed already. */
  function AssemblePush(p: PushInput, typed: (bytes, bytes), kinds: set<nat>, frameCount: nat)
    : (r: Result<(Push, bytes), Fault>)
  {
    if !p.tileIndexMode.RawU16? && !p.tileIndexMode.DenseRange? then Err(BadEnum)
    else
      var packed :- TensorBody.PackSections(p.sections, |p.tileIds|, None);
      var tileIndex :- PackTileIndex(p.tileIds, p.tileIndexMode, p.tileBaseId);
      if Covered(p) < 0 || p.dropped < 0 || Covered(p) > |p.tileIds| || p.dropped > |p.tileIds| then Err(BadCount)
      else if Covered(p) + p.dropped != |p.tileIds| then Err(BadCount)
      else if p.tileBaseId < 0 then Err(OutOfRange)
      else
        var inlineRegion :- PackBlocks(PushBlocks(p, tileIndex, TensorBody.PackRegion(packed)));
        var body :- PackBody(Regions(inlineRegion, [], typed.0, typed.1, [], []));
        var m := PushMetadata(p, tileIndex, kinds, frameCount);
        if !PushFits(m) then Err(OutOfRange) else Ok((m, body))
  }

  /** The tensor builder validates what it assembled. */
  function BuildPush(p: PushInput): (r: Result<(Push, bytes), Fault>) {
    var assembled :- AssemblePush(p, ([], []), {}, 0);
    var _ :- ValidatePush(assembled.0, assembled.1);
    Ok(assembled)
  }

  /** The mixed builder does not. */
  function BuildMixedPush(p: PushInput, frames: seq<TypedFrames.Frame>): (r: Result<(Push, bytes), Fault>) {
    var typed :- BuildTypedRegions(frames);
    if p.tileIds == [] && p.sections == [] then Err(Missing)
    else AssemblePush(p, typed, TypedFrames.FrameKinds(frames), |frames|)
  }

  /** The tile ids a client reads from a result. */
  function ResultTileIds(m: Push, r: Regions): (result: Result<seq<int>, Fault>) {
    var view :- UnpackCurrentTensorBody(r, m.sectionCount, m.tileCount);
    UnpackTileIndex(view.tileIndex, ImpliedMode(m), m.tileCount, m.tileBaseId)
  }

  /** The implied mode reads the ids back although the metadata does not name the mode they were packed with. */
  lemma ImpliedModeReads(p: PushInput, m: Push)
    requires p.tileIndexMode.RawU16? || p.tileIndexMode.DenseRange?
    requires Legal(p.tileIds, p.tileIndexMode, p.tileBaseId)
    requires var tileIndex := PackTileIndex(p.tileIds, p.tileIndexMode, p.tileBaseId);
             tileIndex.Ok? && m.tileIndexBytes == |tileIndex.value|
    requires m.tileCount == |p.tileIds| && m.tileBaseId == p.tileBaseId
    ensures var tileIndex := PackTileIndex(p.tileIds, p.tileIndexMode, p.tileBaseId).value;
            UnpackTileIndex(tileIndex, ImpliedMode(m), m.tileCount, m.tileBaseId) == Ok(p.tileIds)
  {
    TileIndexRoundTrip(p.tileIds, p.tileIndexMode, p.tileBaseId);
  }

  /** The objects of an assembled result satisfy the receiver's object contract. */
  lemma PushObjectsAccepted(p: PushInput, kinds: set<nat>, frameCount: nat)
    requires p.tileIndexMode.RawU16? || p.tileIndexMode.DenseRange?
    requires TensorBody.PackSections(p.sections, |p.tileIds|, None).Ok?
    requires PackTileIndex(p.tileIds, p.tileIndexMode, p.tileBaseId).Ok?
    requires p.tileBaseId >= 0 && Covered(p) >= 0 && p.dropped >= 0
    ensures var packed := TensorBody.PackSections(p.sections, |p.tileIds|, None).value;
            var tileIndex := PackTileIndex(p.tileIds, p.tileIndexMode, p.tileBaseId).value;
            var table := TensorBody.PackRegion(packed);
            var blocks := PushBlocks(p, tileIndex, table);
            && CheckPushObjects(PushMetadata(p, tileIndex, kinds, frameCount), blocks, []).Ok?
            && InlineOf(blocks, TILE_INDEX_BLOCK) == MaybeBlock(p.tileIds != [], TILE_INDEX_BLOCK, tileIndex)
            && InlineOf(blocks, TENSOR_SECTION_TABLE) == MaybeBlock(p.sections != [], TENSOR_SECTION_TABLE, table)
  {
    hide InlineOf, ReferencesOf, TensorBody.LegalSections, TensorBody.PackSections, PackTileIndex, Legal,
      UnpackTileIndex, TensorBody.UnpackTensorBody, TensorSections.PayloadSlices;
    var packed := TensorBody.PackSections(p.sections, |p.tileIds|, None).value;
    var tileIndex := PackTileIndex(p.tileIds, p.tileIndexMode, p.tileBaseId).value;
    TensorBody.PackSectionsAccepts(p.sections, |p.tileIds|, None);
    TensorBody.RegionRoundTrip(p.sections, |p.tileIds|);
    TileIndexRoundTrip(p.tileIds, p.tileIndexMode, p.tileBaseId);
    ImpliedModeReads(p, PushMetadata(p, tileIndex, kinds, frameCount));
    InlineOfParts(
      [],
      MaybeBlock(p.tileIds != [], TILE_INDEX_BLOCK, tileIndex),
      MaybeBlock(p.sections != [], TENSOR_SECTION_TABLE, TensorBody.PackRegion(packed)));
    NoReferences(TILE_INDEX_BLOCK);
    NoReferences(TENSOR_SECTION_TABLE);
  }

  lemma NoReferences(kind: ObjectKind)
    ensures ReferencesOf([], kind) == [] && CheckOrder([]).Ok?
  {
  }

  /** The section table of a result; empty when it does not pack. */
  function PushTable(p: PushInput): bytes {
    var packed := TensorBody.PackSections(p.sections, |p.tileIds|, None);
    if packed.Ok? then TensorBody.PackRegion(packed.value) else []
  }

  /**
   Whatever was assembled from packed typed frames is accepted by the receiver
   exactly when the typed contract holds, and gives back tile ids and payloads.
   */
  lemma AssembledPush(p: PushInput, typed: (bytes, bytes), kinds: set<nat>, frameCount: nat)
    requires AssemblePush(p, typed, kinds, frameCount).Ok?
    requires forall blocks :: PackBlocks(blocks).Ok? ==>
               && UnpackBlocks(PackBlocks(blocks).value) == Ok(blocks)
               && CheckRegions(Regions(PackBlocks(blocks).value, [], typed.0, typed.1, [], [])).Ok?
    ensures var (m, body) := AssemblePush(p, typed, kinds, frameCount).value;
            && UnpackBody(body).Ok?
            && (ValidatePush(m, body).Ok? <==>
                CheckTyped(m.payloadKinds, m.payloadFrameCount, UnpackBody(body).value).Ok?)
            && UnpackBody(body).value.typedDescriptors == typed.0
            && UnpackBody(body).value.typedPayloads == typed.1
            && ResultTileIds(m, UnpackBody(body).value) == Ok(p.tileIds)
            && UnpackCurrentTensorBody(UnpackBody(body).value, m.sectionCount, m.tileCount).Ok?
            && var view := UnpackCurrentTensorBody(UnpackBody(body).value, m.sectionCount, m.tileCount).value;
            && |view.sections| == |p.sections|
            && (forall i :: 0 <= i < |p.sections| ==>
                  && view.sections[i].desc.roleId == p.sections[i].roleId
                  && TensorSections.PayloadSlices(view.sections[i]) == Ok(p.sections[i].tilePayloads))
            && UnpackBlocks(UnpackBody(body).value.inlineObjects) == Ok(
                 (if p.tileIds != [] then [Block(BlockHeader(2, 0, |view.tileIndex|), view.tileIndex)] else [])
                 + (if p.sections != [] then [Block(BlockHeader(3, 0, |PushTable(p)|), PushTable(p))] else []))
            && UnpackBody(body).value.references == []
  {
    hide InlineOf, TensorBody.LegalSections, TensorBody.PackSections, PackTileIndex, Legal, UnpackTileIndex,
      TensorBody.UnpackTensorBody, TensorSections.PayloadSlices, PackBlocks, UnpackBlocks, CheckRegions, PackBody,
      UnpackBody, RegionsFit, CheckTyped, CheckPushObjects, UnpackReferences, TensorBody.PackRegion, IsPartial, IsStale,
      KnownKinds, PushBlocks;
    var packed := TensorBody.PackSections(p.sections, |p.tileIds|, None).value;
    var tileIndex := PackTileIndex(p.tileIds, p.tileIndexMode, p.tileBaseId).value;
    var blocks := PushBlocks(p, tileIndex, TensorBody.PackRegion(packed));
    var (m, body) := AssemblePush(p, typed, kinds, frameCount).value;
    BodyRoundTrip(Regions(PackBlocks(blocks).value, [], typed.0, typed.1, [], []));
    PushObjectsAccepted(p, kinds, frameCount);
    TileIndexRoundTrip(p.tileIds, p.tileIndexMode, p.tileBaseId);
    ImpliedModeReads(p, m);
    TensorBody.PackSectionsAccepts(p.sections, |p.tileIds|, None);
    TensorBody.RegionRoundTrip(p.sections, |p.tileIds|);
    NoExtensions();
    EmptyIndex(p);
    PushBlocksAre(p, tileIndex, TensorBody.PackRegion(packed));
  }

  lemma PushBlocksAre(p: PushInput, tileIndex: bytes, table: bytes)
    ensures PushBlocks(p, tileIndex, table) ==
            (if p.tileIds != [] then [Block(BlockHeader(2, 0, |tileIndex|), tileIndex)] else [])
            + (if p.sections != [] then [Block(BlockHeader(3, 0, |table|), table)] else [])
  {
  }

  lemma EmptyIndex(p: PushInput)
    requires Legal(p.tileIds, p.tileIndexMode, p.tileBaseId)
    ensures p.tileIds == [] ==> PackTileIndex(p.tileIds, p.tileIndexMode, p.tileBaseId) == Ok([])
  {
  }

  /** The bytes of the inline object region of a result. */
  function PushInlineSize(p: PushInput): nat
    requires InU16(p.tileIds)
  {
    MaybeSize(p.tileIds != [], PackedSize(p.tileIds, p.tileIndexMode))
    + MaybeSize(p.sections != [], TensorBody.RegionSize(0, p.sections))
  }

  /**
   Results a server may push: an index mode the client can imply, legal ids
   and sections, counts that cover or drop every tile, and numbers in range.
   */
  predicate LegalPush(p: PushInput) {
    && (p.tileIndexMode.RawU16? || p.tileIndexMode.DenseRange?)
    && TensorBody.LegalSections(p.sections, |p.tileIds|)
    && Legal(p.tileIds, p.tileIndexMode, p.tileBaseId) && p.tileBaseId >= 0
    && 0 <= Covered(p) && 0 <= p.dropped && Covered(p) + p.dropped == |p.tileIds|
    && PushInlineSize(p) < U32
    && PushFits(PushOfSize(p, PackedSize(p.tileIds, p.tileIndexMode), {}, 0))
  }

  lemma PushBlocksSize(p: PushInput, tileIndex: bytes, table: bytes)
    ensures BlocksSize(PushBlocks(p, tileIndex, table)) ==
            MaybeSize(p.tileIds != [], |tileIndex|) + MaybeSize(p.sections != [], |table|)
    ensures forall b :: b in PushBlocks(p, tileIndex, table) ==> b == BlockOf(b.header.objectKind, b.payload)
  {
    hide BlocksSize, BlockBytes;
    var tiles := MaybeBlock(p.tileIds != [], TILE_INDEX_BLOCK, tileIndex);
    var sections := MaybeBlock(p.sections != [], TENSOR_SECTION_TABLE, table);
    assert [] + tiles == tiles;
    BlocksSizeConcat(tiles, sections);
    OneBlockSize(tiles);
    OneBlockSize(sections);
  }

  lemma OneRegionFits(inlineRegion: bytes)
    ensures PackBody(Regions(inlineRegion, [], [], [], [], [])).Ok? <==> |inlineRegion| < U32
  {
    assert PackReferences([]) == Ok([]);
    TwoRegionsFit(inlineRegion, []);
  }

  /** Assembling a tensor result succeeds exactly for the legal inputs. */
  lemma AssembledIff(p: PushInput)
    ensures AssemblePush(p, ([], []), {}, 0).Ok? <==> LegalPush(p)
  {
    hide TensorBody.PackSections, TensorBody.PackRegion, PackTileIndex, Legal, PackBlocks, BlockPackable, PushFits,
      PackBody, PackedSize, BlocksSize, PushBlocks, TensorBody.LegalSections, PushOfSize;
    TensorBody.PackSectionsAccepts(p.sections, |p.tileIds|, None);
    TileIndexRoundTrip(p.tileIds, p.tileIndexMode, p.tileBaseId);
    if TensorBody.LegalSections(p.sections, |p.tileIds|) && Legal(p.tileIds, p.tileIndexMode, p.tileBaseId) {
      PackedSizeAgrees(p.tileIds, p.tileIndexMode, p.tileBaseId);
      var packed := TensorBody.PackSections(p.sections, |p.tileIds|, None).value;
      var tileIndex := PackTileIndex(p.tileIds, p.tileIndexMode, p.tileBaseId).value;
      var table := TensorBody.PackRegion(packed);
      var blocks := PushBlocks(p, tileIndex, table);
      LegalIsU16(p);
      PushTableSize(p);
      PushBlocksSize(p, tileIndex, table);
      if BlocksSize(blocks) < U32 {
        BlocksPackable(blocks);
        BlocksRoundTrip(blocks);
      }
      if PackBlocks(blocks).Ok? {
        PackedBlocksSize(blocks);
        OneRegionFits(PackBlocks(blocks).value);
      }
    }
  }

  lemma LegalIsU16(p: PushInput)
    requires Legal(p.tileIds, p.tileIndexMode, p.tileBaseId)
    ensures InU16(p.tileIds)
  {
  }

  lemma PushTableSize(p: PushInput)
    requires TensorBody.PackSections(p.sections, |p.tileIds|, None).Ok?
    ensures |TensorBody.PackRegion(TensorBody.PackSections(p.sections, |p.tileIds|, None).value)| ==
            TensorBody.RegionSize(0, p.sections)
  {
    hide TensorBody.PackSections;
    TensorBody.RegionBytes(p.sections, |p.tileIds|, None, 0);
  }

  /**
   The tensor builder succeeds exactly for the legal inputs: its own
   validation never refuses what it assembled.  A client reads back the tile
   ids and, per section, the payload of every tile; the body holds the tile
   index under kind 2 and the section table under kind 3, where present.
   */
  lemma PushRoundTrip(p: PushInput)
    ensures BuildPush(p).Ok? <==> LegalPush(p)
    ensures BuildPush(p).Ok? ==>
              var (m, body) := BuildPush(p).value;
              && ValidatePush(m, body).Ok?
              && ResultTileIds(m, ValidatePush(m, body).value) == Ok(p.tileIds)
              && UnpackCurrentTensorBody(ValidatePush(m, body).value, m.sectionCount, m.tileCount).Ok?
              && var view := UnpackCurrentTensorBody(ValidatePush(m, body).value, m.sectionCount, m.tileCount).value;
              && |view.sections| == |p.sections|
              && (forall i :: 0 <= i < |p.sections| ==>
                    && view.sections[i].desc.roleId == p.sections[i].roleId
                    && TensorSections.PayloadSlices(view.sections[i]) == Ok(p.sections[i].tilePayloads))
              && UnpackBlocks(ValidatePush(m, body).value.inlineObjects) == Ok(
                   (if p.tileIds != [] then [Block(BlockHeader(2, 0, |view.tileIndex|), view.tileIndex)] else [])
                   + (if p.sections != [] then [Block(BlockHeader(3, 0, |PushTable(p)|), PushTable(p))] else []))
  {
    hide TensorSections.PayloadSlices, UnpackCurrentTensorBody, ResultTileIds, UnpackBody, PackBlocks, UnpackBlocks,
      CheckRegions, CheckTyped, CheckPushObjects, UnpackReferences, PackBody, CoverageAgrees, PushFits, LegalPush;
    AssembledIff(p);
    if AssemblePush(p, ([], []), {}, 0).Ok? {
      var (m, body) := AssemblePush(p, ([], []), {}, 0).value;
      forall blocks | PackBlocks(blocks).Ok?
        ensures UnpackBlocks(PackBlocks(blocks).value) == Ok(blocks)
        ensures CheckRegions(Regions(PackBlocks(blocks).value, [], [], [], [], [])).Ok?
      {
        PackedBlocksPackable(blocks);
        RegionsSound(blocks, []);
        assert PackReferences([]) == Ok([]);
      }
      AssembledPush(p, ([], []), {}, 0);
      NoTypedFrames(UnpackBody(body).value);
      assert {TENSOR} + {} == {TENSOR};
    }
  }

  /**
   The metadata of an assembled result: counts and sizes are those of the input, all tiles count as covered unless the
   caller says otherwise, and every other field is the caller's.
   */
  lemma PushDescribed(p: PushInput, typed: (bytes, bytes), kinds: set<nat>, frameCount: nat)
    requires AssemblePush(p, typed, kinds, frameCount).Ok?
    ensures var m := AssemblePush(p, typed, kinds, frameCount).value.0;
            && m.tileCount == |p.tileIds| && m.sectionCount == |p.sections| && m.tileBaseId == p.tileBaseId
            && PackTileIndex(p.tileIds, p.tileIndexMode, p.tileBaseId).Ok?
            && m.tileIndexBytes == |PackTileIndex(p.tileIds, p.tileIndexMode, p.tileBaseId).value|
            && m.coveredTileCount == (if p.covered.Some? then p.covered.value else |p.tileIds|)
            && m.droppedTileCount == p.dropped
            && m.payloadKinds == {0} + kinds && m.payloadFrameCount == frameCount
            && m.resultClass == p.context.resultClass && m.resultFlags == p.context.resultFlags
            && m.reusedFrameId == p.context.reusedFrameId
  {
    hide TensorBody.PackSections, PackTileIndex, PackBlocks, PackBody, PushFits;
  }

  /** The coverage rule is one: the constructor of the metadata and the validator of the body agree on it. */
  lemma CoverageChecked(p: PushInput, typed: (bytes, bytes), kinds: set<nat>, frameCount: nat)
    requires AssemblePush(p, typed, kinds, frameCount).Ok?
    ensures var m := AssemblePush(p, typed, kinds, frameCount).value.0;
            && m.coveredTileCount + m.droppedTileCount == |p.tileIds|
            && (IsPartial(m) ==> m.coveredTileCount < |p.tileIds|)
  {
    hide TensorBody.PackSections, PackTileIndex, PackBlocks, PackBody, IsPartial, IsStale, KnownKinds;
  }

  /**
   A mixed result that is built at all is accepted exactly when no frame claims the tensor profile; its tile ids and
   its frames are read back either way.
   */
  lemma MixedPushAccepted(p: PushInput, frames: seq<TypedFrames.Frame>)
    requires BuildMixedPush(p, frames).Ok?
    ensures var (m, body) := BuildMixedPush(p, frames).value;
            && UnpackBody(body).Ok?
            && (ValidatePush(m, body).Ok? <==> NoTensorProfile(frames))
            && ResultTileIds(m, UnpackBody(body).value) == Ok(p.tileIds)
            && UnpackCurrentTensorBody(UnpackBody(body).value, m.sectionCount, m.tileCount).Ok?
            && var view := UnpackCurrentTensorBody(UnpackBody(body).value, m.sectionCount, m.tileCount).value;
            && |view.sections| == |p.sections|
            && (forall i :: 0 <= i < |p.sections| ==>
                  TensorSections.PayloadSlices(view.sections[i]) == Ok(p.sections[i].tilePayloads))
            && TypedFrames.UnpackTypedFrames(UnpackBody(body).value.typedDescriptors,
                                             UnpackBody(body).value.typedPayloads, m.payloadKinds) == Ok(frames)
  {
    hide TensorSections.PayloadSlices, UnpackCurrentTensorBody, ResultTileIds, UnpackBody, PackBlocks, UnpackBlocks,
      CheckRegions, CheckTyped, CheckPushObjects, UnpackReferences, PackBody, CoverageAgrees, PushFits, ValidatePush,
      TypedFrames.PackTypedFrames, TypedFrames.UnpackTypedFrames, TypedFrames.FrameKinds, NoTensorProfile;
    TypedFrames.TypedFramesRoundTrip(frames, true);
    var typed := TypedFrames.PackTypedFrames(frames).value;
    var kinds := TypedFrames.FrameKinds(frames);
    forall blocks | PackBlocks(blocks).Ok?
      ensures UnpackBlocks(PackBlocks(blocks).value) == Ok(blocks)
      ensures CheckRegions(Regions(PackBlocks(blocks).value, [], typed.0, typed.1, [], [])).Ok?
    {
      MixedRegionsSound(blocks, frames);
    }
    AssembledPush(p, typed, kinds, |frames|);
    var (m, body) := BuildMixedPush(p, frames).value;
    TypedContract(frames, true, UnpackBody(body).value);
    assert {TENSOR} + kinds == kinds + {TENSOR};
    AssembledKinds(p, typed, kinds, |frames|);
  }

  lemma AssembledKinds(p: PushInput, typed: (bytes, bytes), kinds: set<nat>, frameCount: nat)
    requires AssemblePush(p, typed, kinds, frameCount).Ok?
    ensures var m := AssemblePush(p, typed, kinds, frameCount).value.0;
            m.payloadKinds == {TENSOR} + kinds && m.payloadFrameCount == frameCount
  {
    hide TensorBody.PackSections, PackTileIndex, PackBlocks, PackBody, PushFits;
  }

  /** Typed frames alone: every tensor field of the metadata is zero, and the coverage rule is checked. */
  function BuildTypedPush(context: Push, frames: seq<TypedFrames.Frame>): (r: Result<(Push, bytes), Fault>) {
    var typed :- BuildTypedRegions(frames);
    var m := context.(sectionCount := 0, tileCount := 0, tileBaseId := 0, tileIndexBytes := 0, coveredTileCount := 0,
                      droppedTileCount := 0, payloadKinds := TypedFrames.FrameKinds(frames),
                      payloadFrameCount := |frames|);
    if !PushFits(m) then Err(OutOfRange)
    else if !CoverageAgrees(m) then Err(BadCount)
    else
      var body :- PackBody(Regions([], [], typed.0, typed.1, [], []));
      Ok((m, body))
  }

  /** A result of typed frames alone is accepted under the same condition, and its frames are read back. */
  lemma TypedPushAccepted(context: Push, frames: seq<TypedFrames.Frame>)
    requires BuildTypedPush(context, frames).Ok?
    ensures var (m, body) := BuildTypedPush(context, frames).value;
            && UnpackBody(body).Ok?
            && (ValidatePush(m, body).Ok? <==> NoTensorProfile(frames))
            && TypedFrames.UnpackTypedFrames(UnpackBody(body).value.typedDescriptors,
                                             UnpackBody(body).value.typedPayloads, m.payloadKinds) == Ok(frames)
            && m.sectionCount == m.tileCount == m.tileBaseId == m.tileIndexBytes == 0
            && m.coveredTileCount == m.droppedTileCount == 0
            && m.payloadFrameCount == |frames|
            && m.resultClass == context.resultClass && m.resultFlags == context.resultFlags
            && m.reusedFrameId == context.reusedFrameId
  {
    hide CheckTyped, CheckRegions, PackBody, UnpackBody, RegionsFit, PushFits, CoverageAgrees,
      TypedFrames.PackTypedFrames, TypedFrames.UnpackTypedFrames, TypedFrames.FrameKinds, NoTensorProfile;
    var (m, body) := BuildTypedPush(context, frames).value;
    var (descriptors, payloads) := TypedFrames.PackTypedFrames(frames).value;
    var regions := Regions([], [], descriptors, payloads, [], []);
    assert PackBlocks([]) == Ok([]);
    MixedRegionsSound([], frames);
    BodyRoundTrip(regions);
    TypedContract(frames, false, regions);
    TypedFrames.TypedFramesRoundTrip(frames, false);
    NoExtensions();
    var kinds := TypedFrames.FrameKinds(frames);
    assert kinds + {} == kinds;
    NoReferences(TILE_INDEX_BLOCK);
    NoReferences(TENSOR_SECTION_TABLE);
    assert CheckPushObjects(m, [], []).Ok? by {
      assert InlineOf([], TILE_INDEX_BLOCK) == [] && InlineOf([], TENSOR_SECTION_TABLE) == [];
    }
  }

  /** A context whose fields are zero. */
  const PLAIN_PUSH := Push(0, 0, 0, 0, 0, 0, 0, 0, 0, {}, 0)

  /** The typed and the mixed builder emit bodies that the receiver refuses. */
  lemma RefusedTypedPush()
    ensures BuildTypedPush(PLAIN_PUSH, [CLAIMING]).Ok?
    ensures var (m, body) := BuildTypedPush(PLAIN_PUSH, [CLAIMING]).value;
            ValidatePush(m, body).Err?
  {
    hide TypedFrames.PackTypedFrames, TypedFrames.FrameKinds, NoTensorProfile, ValidatePush, PackBody;
    ClaimingPacks();
    var (descriptors, payloads) := TypedFrames.PackTypedFrames([CLAIMING]).value;
    FewBytesFit(Regions([], [], descriptors, payloads, [], []));
    TypedPushAccepted(PLAIN_PUSH, [CLAIMING]);
  }

  lemma RefusedMixedPush()
    ensures var p := PushInput(PLAIN_PUSH, [0], [], DenseRange, 0, None, 0);
            && BuildMixedPush(p, [CLAIMING]).Ok?
            && var (m, body) := BuildMixedPush(p, [CLAIMING]).value;
            ValidatePush(m, body).Err?
  {
    hide TypedFrames.PackTypedFrames, TypedFrames.FrameKinds, NoTensorProfile, ValidatePush, PackBody, PackBlocks,
      BlocksSize, BlockBytes, BlockPackable;
    var p := PushInput(PLAIN_PUSH, [0], [], DenseRange, 0, None, 0);
    ClaimingPacks();
    var (descriptors, payloads) := TypedFrames.PackTypedFrames([CLAIMING]).value;
    DenseZero();
    var blocks := PushBlocks(p, [], TensorBody.PackRegion([]));
    assert blocks == [BlockOf(TILE_INDEX_BLOCK, [])];
    OneBlockSize(blocks);
    BlocksPackable(blocks);
    BlocksRoundTrip(blocks);
    PackedBlocksSize(blocks);
    FewBytesFit(Regions(PackBlocks(blocks).value, [], descriptors, payloads, [], []));
    MixedPushAccepted(p, [CLAIMING]);
  }

  lemma DenseZero()
    ensures PackTileIndex([0], DenseRange, 0) == Ok([])
  {
    assert [0] == Range(0, 1);
  }

  // ---------------------------------------------------------------------
  // What acceptance promises
  // ---------------------------------------------------------------------

  lemma AcceptedPushObjects(m: Push, blocks: seq<Block>, refs: seq<Reference>)
    requires CheckPushObjects(m, blocks, refs).Ok?
    ensures |InlineOf(blocks, TILE_INDEX_BLOCK)| <= 1 && |InlineOf(blocks, TENSOR_SECTION_TABLE)| <= 1
    ensures CheckPushTiles(m, blocks, refs).Ok? && CheckPushSections(m, blocks, refs).Ok?
  {
    hide CheckPushTiles, CheckPushSections, CheckOrder;
  }

  /**
   Whatever bytes a peer sent, an accepted RESULT_PUSH can be decoded: its typed frames unpack, its sections are read
   with increasing roles and one payload per tile, and tile ids are read. Sections that are referenced are not read.
   */
  lemma AcceptedPushDecodes(m: Push, body: bytes)
    requires ValidatePush(m, body).Ok?
    ensures var r := ValidatePush(m, body).value;
            && TypedFrames.UnpackTypedFrames(r.typedDescriptors, r.typedPayloads, m.payloadKinds).Ok?
            && UnpackReferences(r.references).Ok?
            && UnpackCurrentTensorBody(r, m.sectionCount, m.tileCount).Ok?
            && var view := UnpackCurrentTensorBody(r, m.sectionCount, m.tileCount).value;
            && TensorBody.SoundSections(view.sections, m.tileCount)
            && var refs := ReferencesOf(UnpackReferences(r.references).value, TENSOR_SECTION_TABLE);
            && |view.sections| == (if refs != [] then 0 else m.sectionCount)
            && ResultTileIds(m, r).Ok?
  {
    hide UnpackBlocks, InlineOf, ReferencesOf, UnpackReferences, TensorBody.UnpackTensorBody, CheckRegions, CheckTyped,
      CheckPushObjects, UnpackTileIndex, TensorBody.SoundSections, UnpackCurrentTensorBody,
      TypedFrames.UnpackTypedFrames, CoverageAgrees;
    var r := ValidatePush(m, body).value;
    UnpackedChecks(body);
    AcceptedTyped(m.payloadKinds, m.payloadFrameCount, r);
    AcceptedPushObjects(m, UnpackBlocks(r.inlineObjects).value, UnpackReferences(r.references).value);
    ReadsObjects(r, m.sectionCount, m.tileCount);
    NoBlockReads(ImpliedMode(m), m.tileCount, m.tileBaseId);
  }

  /**
   Where the ids that a client reads come from. With no reference to a tile index they are those of the inline index;
   with one they are a dense range, whatever the referenced object holds.
   */
  lemma ResultIdsSource(m: Push, body: bytes)
    requires ValidatePush(m, body).Ok?
    ensures var r := ValidatePush(m, body).value;
            && UnpackBlocks(r.inlineObjects).Ok? && UnpackReferences(r.references).Ok?
            && var tiles := InlineOf(UnpackBlocks(r.inlineObjects).value, TILE_INDEX_BLOCK);
            && var refs := ReferencesOf(UnpackReferences(r.references).value, TILE_INDEX_BLOCK);
            && (refs == [] && tiles != [] ==>
                  ResultTileIds(m, r) == UnpackTileIndex(tiles[0].payload, ImpliedMode(m), m.tileCount, m.tileBaseId))
            && (refs == [] && tiles == [] ==> m.tileCount == 0 && ResultTileIds(m, r) == Ok([]))
            && (refs != [] ==> tiles == [] && ResultTileIds(m, r) == Ok(Range(m.tileBaseId, m.tileCount)))
  {
    hide UnpackBlocks, InlineOf, ReferencesOf, UnpackReferences, TensorBody.UnpackTensorBody, CheckRegions, CheckTyped,
      CheckPushObjects, UnpackTileIndex, TensorBody.SoundSections, UnpackCurrentTensorBody, CoverageAgrees;
    var r := ValidatePush(m, body).value;
    AcceptedPushObjects(m, UnpackBlocks(r.inlineObjects).value, UnpackReferences(r.references).value);
    ReadsObjects(r, m.sectionCount, m.tileCount);
    NoBlockReads(ImpliedMode(m), m.tileCount, m.tileBaseId);
  }

  /** The exact condition: the ids of a result with tiles are read from its body if and only if none are referenced. */
  lemma IdsFromBodyIff(m: Push, body: bytes)
    requires ValidatePush(m, body).Ok? && m.tileCount > 0
    ensures var r := ValidatePush(m, body).value;
            && UnpackBlocks(r.inlineObjects).Ok? && UnpackReferences(r.references).Ok?
            && (InlineOf(UnpackBlocks(r.inlineObjects).value, TILE_INDEX_BLOCK) != [] <==>
                ReferencesOf(UnpackReferences(r.references).value, TILE_INDEX_BLOCK) == [])
  {
    hide UnpackBlocks, InlineOf, ReferencesOf, UnpackReferences, ResultTileIds;
    ResultIdsSource(m, body);
  }

  /** When the index is referenced, the ids of the referenced object are read exactly if it holds the dense range. */
  lemma ReferencedIdsIff(m: Push, body: bytes, cached: bytes, mode: Mode)
    requires ValidatePush(m, body).Ok?
    requires UnpackTileIndex(cached, mode, m.tileCount, m.tileBaseId).Ok?
    requires UnpackReferences(ValidatePush(m, body).value.references).Ok?
    requires ReferencesOf(UnpackReferences(ValidatePush(m, body).value.references).value, TILE_INDEX_BLOCK) != []
    ensures var ids := UnpackTileIndex(cached, mode, m.tileCount, m.tileBaseId).value;
            ResultTileIds(m, ValidatePush(m, body).value) == Ok(ids) <==> ids == Range(m.tileBaseId, m.tileCount)
  {
    hide UnpackBlocks, InlineOf, ReferencesOf, UnpackReferences, ResultTileIds, UnpackTileIndex;
    ResultIdsSource(m, body);
  }

  /** A result of two tiles whose index is a cached object. */
  const REFERENCING_PUSH := Push(0, 0, 0, 0, 2, 0, 0, 2, 0, {TENSOR}, 0)
  const INDEX_REFERENCE := Reference.Reference(TILE_INDEX_BLOCK, 0, 0, 0)

  lemma ReferencingBody()
    ensures PackReferences([INDEX_REFERENCE]).Ok?
    ensures var r := Regions([], PackReferences([INDEX_REFERENCE]).value, [], [], [], []);
            && PackBody(r).Ok? && UnpackBody(PackBody(r).value) == Ok(r)
            && UnpackReferences(r.references) == Ok([INDEX_REFERENCE])
  {
    var refs := [INDEX_REFERENCE];
    assert ReferenceFits(INDEX_REFERENCE) by {
      var v := ReferenceValues(INDEX_REFERENCE);
      assert |v| == |REFERENCE_LAYOUT| == 5;
      SmallFits(v, REFERENCE_LAYOUT);
    }
    hide PackReferences, UnpackReferences, ReferenceFits, RegionsFit;
    ReferencesRoundTrip(refs);
    TwoRegionsFit([], refs);
    var r := Regions([], PackReferences(refs).value, [], [], [], []);
    RegionsSound([], refs);
    BodyRoundTrip(r);
  }

  /** The failing side has inputs: the client reads 0 and 1 where the referenced object holds 5 and 9. */
  lemma ReferencedIdsInvented()
    ensures PushFits(REFERENCING_PUSH)
    ensures PackReferences([INDEX_REFERENCE]).Ok?
    ensures var packed := PackBody(Regions([], PackReferences([INDEX_REFERENCE]).value, [], [], [], []));
            && packed.Ok? && ValidatePush(REFERENCING_PUSH, packed.value).Ok?
            && ResultTileIds(REFERENCING_PUSH, ValidatePush(REFERENCING_PUSH, packed.value).value) == Ok([0, 1])
    ensures PackTileIndex([5, 9], RawU16, 0).Ok?
    ensures UnpackTileIndex(PackTileIndex([5, 9], RawU16, 0).value, RawU16, 2, 0) == Ok([5, 9])
  {
    hide PackReferences, UnpackReferences, PackBody, UnpackBody, EncodeAll, DecodeAll;
    TileIndexRoundTrip([5, 9], RawU16, 0);
    ReferencingBody();
    var refs := [INDEX_REFERENCE];
    var r := Regions([], PackReferences(refs).value, [], [], [], []);
    assert refs[1..] == [];
    assert ReferencesOf(refs, TILE_INDEX_BLOCK) == refs && ReferencesOf(refs, TENSOR_SECTION_TABLE) == [];
    NoTypedFrames(r);
    assert CheckPushObjects(REFERENCING_PUSH, [], refs).Ok?;
    hide ReferencesOf, CheckPushObjects, ResultTileIds, CheckTyped;
    ResultIdsSource(REFERENCING_PUSH, PackBody(r).value);
    assert [0, 1] == Range(0, 2);
  }
}
