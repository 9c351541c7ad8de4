/** Bodies that carry typed frames, alone or beside tensors (src/nnrp/core/packet.py:2103-2165 and 2232-2320). */
module MixedBodies {
  import opened Outcomes
  import opened Wire
  import opened Bits
  import opened InlineObjects
  import opened Bodies
  import opened Metadata
  import opened TileIndex
  import opened SubmitBody
  import TensorBody
  import TensorSections
  import TypedFrames
  import PayloadSpans

  predicate NoTensorProfile(frames: seq<TypedFrames.Frame>) {
    forall f :: f in frames ==> f.about.profileId != TypedFrames.TENSOR_PROFILE
  }

  /** Packs the frames of a typed or mixed message; there must be at least one. */
  function BuildTypedRegions(frames: seq<TypedFrames.Frame>): (r: Result<(bytes, bytes), Fault>) {
    if frames == [] then Err(Missing) else TypedFrames.PackTypedFrames(frames)
  }

  /** Frames beside tensors: no reference blocks, and no validation of the result. */
  function BuildMixedSubmit(t: TensorInput, frames: seq<TypedFrames.Frame>): (r: Result<(Submit, bytes), Fault>)
    requires t.cameraRef.None? && t.tileRef.None? && t.sectionRef.None?
  {
    var typed :- BuildTypedRegions(frames);
    var packed :- TensorBody.PackSections(t.sections, |t.tileIds|, None);
    var tileIndex :- PackTileIndex(t.tileIds, t.tileIndexMode, t.tileBaseId);
    if t.camera == [] && t.tileIds == [] && t.sections == [] then Err(Missing)
    else
      var inlineRegion :- PackBlocks(InlineBlocks(t, tileIndex, TensorBody.PackRegion(packed)));
      if t.tileBaseId < 0 then Err(OutOfRange)
      else
        var m := SubmitMetadata(t, Inline, 0, tileIndex)
                 .(payloadKinds := {TENSOR} + TypedFrames.FrameKinds(frames), payloadFrameCount := |frames|);
        var _ :- PackSubmit(m);
        var body :- PackBody(Regions(inlineRegion, [], typed.0, typed.1, [], []));
        Ok((m, body))
  }

  /** Frames without tensors: every tensor field of the metadata is zero. */
  function BuildTypedSubmit(context: Submit, frames: seq<TypedFrames.Frame>): (r: Result<(Submit, bytes), Fault>) {
    var typed :- BuildTypedRegions(frames);
    var m := context.(srcWidth := 0, srcHeight := 0, tileWidth := 0, tileHeight := 0, tileCount := 0, sectionCount := 0,
                      inputProfile := 0, tileIndexMode := RawU16, tileBaseId := 0, cameraBytes := 0,
                      tileIndexBytes := 0,
                      submitMode := Inline, objectRefMask := 0, payloadKinds := TypedFrames.FrameKinds(frames),
                      payloadFrameCount := |frames|);
    var _ :- PackSubmit(m);
    var body :- PackBody(Regions([], [], typed.0, typed.1, [], []));
    Ok((m, body))
  }

  /** The typed contract holds of packed frames exactly when none of them claims the tensor profile. */
  lemma TypedContract(frames: seq<TypedFrames.Frame>, tensorToo: bool, r: Regions)
    requires frames != [] && TypedFrames.PackTypedFrames(frames) == Ok((r.typedDescriptors, r.typedPayloads))
    ensures CheckTyped(TypedFrames.FrameKinds(frames) + if tensorToo then {TENSOR} else {}, |frames|, r).Ok?
            <==> NoTensorProfile(frames)
  {
    hide TypedFrames.PackTypedFrames, TypedFrames.UnpackTypedFrames, PayloadSpans.DescriptorsOf, TypedFrames.FrameKinds,
      TypedFrames.Kinds, PayloadSpans.ValidateOffsets, TypedFrames.UnpackDescriptors;
    TypedFrames.TypedFramesRoundTrip(frames, tensorToo);
    var ds := PayloadSpans.DescriptorsOf(frames, 0);
    NoTensorDescriptor(ds);
    var kinds := TypedFrames.FrameKinds(frames);
    assert (kinds + if tensorToo then {TENSOR} else {}) - {TENSOR} == kinds;
    if NoTensorProfile(frames) {
      forall d | d in ds
        ensures d.about.profileId != TypedFrames.TENSOR_PROFILE
      {
        var i :| 0 <= i < |ds| && ds[i] == d;
        assert frames[i] in frames;
      }
    } else {
      var f :| f in frames && f.about.profileId == TypedFrames.TENSOR_PROFILE;
      var i :| 0 <= i < |frames| && frames[i] == f;
      assert ds[i] in ds;
    }
  }

  lemma NoTensorDescriptor(ds: seq<TypedFrames.Descriptor>)
    ensures TENSOR !in TypedFrames.Kinds(ds) <==> forall d :: d in ds ==> d.about.kind != TENSOR
  {
    if TENSOR !in TypedFrames.Kinds(ds) {
      forall d | d in ds
        ensures d.about.kind != TENSOR
      {
        var i :| 0 <= i < |ds| && ds[i] == d;
        assert ds[i].about.kind in TypedFrames.Kinds(ds);
      }
    } else {
      var i :| 0 <= i < |ds| && ds[i].about.kind == TENSOR;
      assert ds[i] in ds;
    }
  }

  /** The regions of inline blocks and typed frames pass the checks every body passes. */
  lemma MixedRegionsSound(blocks: seq<Block>, frames: seq<TypedFrames.Frame>)
    requires PackBlocks(blocks).Ok? && TypedFrames.PackTypedFrames(frames).Ok?
    ensures var (descriptors, payloads) := TypedFrames.PackTypedFrames(frames).value;
            CheckRegions(Regions(PackBlocks(blocks).value, [], descriptors, payloads, [], [])).Ok?
    ensures UnpackBlocks(PackBlocks(blocks).value) == Ok(blocks)
  {
    hide BlockPackable, PackBlocks, UnpackBlocks, TypedFrames.PackTypedFrames, TypedFrames.UnpackTypedFrames,
      PayloadSpans.ValidateOffsets, TypedFrames.UnpackDescriptors, PayloadSpans.DescriptorsOf;
    PackedBlocksPackable(blocks);
    BlocksRoundTrip(blocks);
    TypedFrames.TypedFramesRoundTrip(frames, false);
    NoExtensions();
  }

  lemma NoExtensions()
    ensures UnpackReferences([]) == Ok([])
    ensures CheckRegions(Regions([], [], [], [], [], [])).Ok?
  {
  }

  /** The object contract does not look at the typed part of the metadata. */
  lemma ObjectsIgnoreTyped(m: Submit, kinds: set<nat>, count: nat, blocks: seq<Block>, refs: seq<Reference>)
    ensures CheckObjects(m.(payloadKinds := kinds, payloadFrameCount := count), blocks, refs)
            == CheckObjects(m, blocks, refs)
  {
    hide InlineOf, ReferencesOf, RefKinds, CheckSlots, UnpackTileIndex, TensorBody.UnpackTensorBody;
  }

  /**
   A mixed submit that is built at all is accepted by the receiver exactly
   when no frame claims the tensor profile.
   */
  lemma MixedSubmitAccepted(t: TensorInput, frames: seq<TypedFrames.Frame>)
    requires t.cameraRef.None? && t.tileRef.None? && t.sectionRef.None?
    requires BuildMixedSubmit(t, frames).Ok?
    ensures var (m, body) := BuildMixedSubmit(t, frames).value;
            ValidateSubmit(m, body).Ok? <==> NoTensorProfile(frames)
  {
    hide InlineOf, ReferencesOf, RefKinds, Legal, TensorBody.LegalSections, TensorBody.PackSections, PackTileIndex,
      PackBlocks, BlockPackable, CheckObjects, CheckTyped, CheckRegions, PackBody, UnpackBody, UnpackBlocks,
      UnpackReferences, RegionsFit, PackSubmit, TensorBody.PackRegion, TypedFrames.PackTypedFrames,
      TypedFrames.FrameKinds, NoTensorProfile;
    TensorBody.PackSectionsAccepts(t.sections, |t.tileIds|, None);
    TileIndexRoundTrip(t.tileIds, t.tileIndexMode, t.tileBaseId);
    ObjectsAccepted(t);
    var packed := TensorBody.PackSections(t.sections, |t.tileIds|, None).value;
    var tileIndex := PackTileIndex(t.tileIds, t.tileIndexMode, t.tileBaseId).value;
    var blocks := InlineBlocks(t, tileIndex, TensorBody.PackRegion(packed));
    var (descriptors, payloads) := TypedFrames.PackTypedFrames(frames).value;
    var regions := Regions(PackBlocks(blocks).value, [], descriptors, payloads, [], []);
    MixedRegionsSound(blocks, frames);
    BodyRoundTrip(regions);
    TypedContract(frames, true, regions);
    NoExtensions();
    var kinds := TypedFrames.FrameKinds(frames);
    assert {TENSOR} + kinds == kinds + {TENSOR};
    ObjectsIgnoreTyped(SubmitMetadata(t, Inline, 0, tileIndex), {TENSOR} + kinds, |frames|, blocks, []);
    assert References(t) == [];
  }

  /** The same for a submit of typed frames alone, whose frames are read back either way. */
  lemma TypedSubmitAccepted(context: Submit, frames: seq<TypedFrames.Frame>)
    requires BuildTypedSubmit(context, frames).Ok?
    ensures var (m, body) := BuildTypedSubmit(context, frames).value;
            && (ValidateSubmit(m, body).Ok? <==> NoTensorProfile(frames))
            && UnpackBody(body).Ok?
            && TypedFrames.UnpackTypedFrames(UnpackBody(body).value.typedDescriptors,
                                             UnpackBody(body).value.typedPayloads, m.payloadKinds) == Ok(frames)
  {
    hide CheckTyped, CheckRegions, PackBody, UnpackBody, RegionsFit, PackSubmit,
      TypedFrames.PackTypedFrames, TypedFrames.UnpackTypedFrames, TypedFrames.FrameKinds, NoTensorProfile;
    TypedFrames.TypedFramesRoundTrip(frames, false);
    var (m, body) := BuildTypedSubmit(context, frames).value;
    var (descriptors, payloads) := TypedFrames.PackTypedFrames(frames).value;
    var regions := Regions([], [], descriptors, payloads, [], []);
    assert PackBlocks([]) == Ok([]);
    MixedRegionsSound([], frames);
    BodyRoundTrip(regions);
    TypedContract(frames, false, regions);
    NoExtensions();
    var kinds := TypedFrames.FrameKinds(frames);
    assert kinds + {} == kinds;
    assert CheckObjects(m, [], []).Ok? by {
      assert InlineOf([], CAMERA_BLOCK) == [];
    }
  }

  /** The metadata of a mixed submit is of an inline tensor submit with the frames counted and their kinds added. */
  lemma MixedSubmitDescribed(t: TensorInput, frames: seq<TypedFrames.Frame>)
    requires t.cameraRef.None? && t.tileRef.None? && t.sectionRef.None?
    requires BuildMixedSubmit(t, frames).Ok?
    ensures var m := BuildMixedSubmit(t, frames).value.0;
            && m.tileCount == |t.tileIds| && m.sectionCount == |t.sections|
            && m.tileIndexMode == t.tileIndexMode && m.tileBaseId == t.tileBaseId
            && m.cameraBytes == |t.camera| && m.tileIndexBytes == |TileIndexOf(t)|
            && m.submitMode.Inline? && m.objectRefMask == 0
            && (forall kind :: kind in m.payloadKinds <==> kind == 0 || exists f :: f in frames && f.about.kind == kind)
            && m.payloadFrameCount == |frames|
    ensures ContextKept(BuildMixedSubmit(t, frames).value.0, t.context)
            && BuildMixedSubmit(t, frames).value.0.inputProfile == t.context.inputProfile
            && SameGeometry(BuildMixedSubmit(t, frames).value.0, t.context)
  {
    hide TensorBody.PackSections, PackTileIndex, PackBlocks, PackBody, PackSubmit, TypedFrames.PackTypedFrames,
      InlineBlocks, TypedFrames.FrameKinds;
    KindsOfFrames(frames);
  }

  lemma KindsOfFrames(frames: seq<TypedFrames.Frame>)
    ensures forall kind :: kind in TypedFrames.FrameKinds(frames) <==> exists f :: f in frames && f.about.kind == kind
  {
    forall kind
      ensures kind in TypedFrames.FrameKinds(frames) <==> exists f :: f in frames && f.about.kind == kind
    {
      if kind in TypedFrames.FrameKinds(frames) {
        var i :| 0 <= i < |frames| && frames[i].about.kind == kind;
        assert frames[i] in frames;
      }
      if f :| f in frames && f.about.kind == kind {
        var i :| 0 <= i < |frames| && frames[i] == f;
        assert frames[i].about.kind in TypedFrames.FrameKinds(frames);
      }
    }
  }

  /** A submit of typed frames alone describes no tensor at all. */
  lemma TypedSubmitDescribed(context: Submit, frames: seq<TypedFrames.Frame>)
    requires BuildTypedSubmit(context, frames).Ok?
    ensures var m := BuildTypedSubmit(context, frames).value.0;
            && m.srcWidth == m.srcHeight == m.tileWidth == m.tileHeight == m.tileCount == m.sectionCount == 0
            && m.inputProfile == m.tileBaseId == m.cameraBytes == m.tileIndexBytes == 0 && m.tileIndexMode.RawU16?
            && m.submitMode.Inline? && m.objectRefMask == 0
            && (forall kind :: kind in m.payloadKinds <==> exists f :: f in frames && f.about.kind == kind)
            && m.payloadFrameCount == |frames| >= 1
    ensures ContextKept(BuildTypedSubmit(context, frames).value.0, context)
  {
    hide PackBody, PackSubmit, TypedFrames.PackTypedFrames, TypedFrames.FrameKinds;
    KindsOfFrames(frames);
  }

  /**
   Reading a mixed submit gives back the frames, the tile ids and, per section, the payload of every tile; the blocks
   are the camera bytes under kind 1, the tile index under kind 2 and the section table under kind 3, where present.
   */
  lemma MixedSubmitReads(t: TensorInput, frames: seq<TypedFrames.Frame>)
    requires t.cameraRef.None? && t.tileRef.None? && t.sectionRef.None?
    requires BuildMixedSubmit(t, frames).Ok?
    ensures var (m, body) := BuildMixedSubmit(t, frames).value;
            && UnpackBody(body).Ok?
            && var r := UnpackBody(body).value;
            && TypedFrames.UnpackTypedFrames(r.typedDescriptors, r.typedPayloads, m.payloadKinds) == Ok(frames)
            && UnpackCurrentTensorBody(r, m.sectionCount, m.tileCount).Ok?
            && var view := UnpackCurrentTensorBody(r, m.sectionCount, m.tileCount).value;
            && UnpackTileIndex(view.tileIndex, m.tileIndexMode, m.tileCount, m.tileBaseId) == Ok(t.tileIds)
            && |view.sections| == |t.sections|
            && (forall i :: 0 <= i < |t.sections| ==>
                  && view.sections[i].desc.roleId == t.sections[i].roleId
                  && TensorSections.PayloadSlices(view.sections[i]) == Ok(t.sections[i].tilePayloads))
            && UnpackBlocks(r.inlineObjects) == Ok(
                 (if t.camera != [] then [Block(BlockHeader(1, 0, |t.camera|), t.camera)] else [])
                 + (if t.tileIds != [] then [Block(BlockHeader(2, 0, |view.tileIndex|), view.tileIndex)] else [])
                 + (if t.sections != [] then [Block(BlockHeader(3, 0, |TableOf(t)|), TableOf(t))] else []))
            && r.references == []
  {
    hide InlineOf, ReferencesOf, RefKinds, Legal, TensorBody.LegalSections, TensorBody.PackSections, PackTileIndex,
      PackBlocks, BlockPackable, CheckObjects, CheckRegions, PackBody, UnpackBody, UnpackBlocks, UnpackTileIndex,
      UnpackReferences, RegionsFit, PackSubmit, TensorBody.PackRegion, TensorBody.UnpackTensorBody,
      TensorSections.PayloadSlices, TypedFrames.PackTypedFrames, TypedFrames.UnpackTypedFrames, TypedFrames.FrameKinds;
    TensorBody.PackSectionsAccepts(t.sections, |t.tileIds|, None);
    TensorBody.RegionRoundTrip(t.sections, |t.tileIds|);
    TileIndexRoundTrip(t.tileIds, t.tileIndexMode, t.tileBaseId);
    ObjectsAccepted(t);
    EmptyTiles(t);
    var packed := TensorBody.PackSections(t.sections, |t.tileIds|, None).value;
    var tileIndex := PackTileIndex(t.tileIds, t.tileIndexMode, t.tileBaseId).value;
    var blocks := InlineBlocks(t, tileIndex, TensorBody.PackRegion(packed));
    var (descriptors, payloads) := TypedFrames.PackTypedFrames(frames).value;
    var regions := Regions(PackBlocks(blocks).value, [], descriptors, payloads, [], []);
    MixedRegionsSound(blocks, frames);
    BodyRoundTrip(regions);
    TypedFrames.TypedFramesRoundTrip(frames, true);
    assert {TENSOR} + TypedFrames.FrameKinds(frames) == TypedFrames.FrameKinds(frames) + {TENSOR};
  }

  // Inputs on which the refusing side of the conditions above is met

  /** An empty frame that is no tensor but claims the tensor profile. */
  const CLAIMING := PayloadSpans.Carried(TypedFrames.Typed(1, TypedFrames.TENSOR_PROFILE, 0, 0, 0, 0), [])

  /** A context whose fields are zero, but for the operation and the default loss tolerance. */
  const PLAIN := Submit(0, 0, 0, 0, 0, 0, 0, 0, RawU16, 0, 0, 0, 0, 0, 0, 1, Inline, 0, 0xFF, 0, 0, {}, 0)

  lemma SmallFits(values: seq<nat>, layout: seq<nat>)
    requires |values| == |layout|
    requires forall i :: 0 <= i < |values| ==> values[i] < 0x100 && layout[i] >= 1
    ensures Fits(values, layout)
  {
    forall i | 0 <= i < |values|
      ensures values[i] < Capacity(layout[i])
    {
      assert Capacity(layout[i]) == 256 * Capacity(layout[i] - 1);
    }
  }

  lemma ClaimingPacks()
    ensures TypedFrames.PackTypedFrames([CLAIMING]).Ok?
    ensures var (descriptors, payloads) := TypedFrames.PackTypedFrames([CLAIMING]).value;
            |descriptors| == TypedFrames.DESCRIPTOR_LENGTH && payloads == []
    ensures !NoTensorProfile([CLAIMING]) && TypedFrames.FrameKinds([CLAIMING]) == {1}
  {
    var frames := [CLAIMING];
    assert CLAIMING in frames;
    var d := PayloadSpans.Described(CLAIMING.about, PayloadSpans.Span(0, 0));
    assert frames[1..] == [];
    assert PayloadSpans.DescriptorsOf(frames, 0) == [d];
    var v := TypedFrames.DescriptorValues(d);
    assert Pow2(1) == 2;
    assert v == [1, 2, 0, 0, 0, 0, 0, 0, 0];
    SmallFits(v, TypedFrames.DESCRIPTOR_LAYOUT);
    TypedFrames.DescriptorsRoundTrip([d]);
    assert PayloadSpans.Payloads(frames)[0] == [] && PayloadSpans.Payloads(frames)[1..] == [];
    assert Join(PayloadSpans.Payloads(frames)) == [];
    assert frames[0].about.kind in TypedFrames.FrameKinds(frames);
  }

  lemma PlainFits(m: Submit)
    requires m == PLAIN.(cameraBytes := m.cameraBytes, payloadKinds := m.payloadKinds, payloadFrameCount := 1)
    requires KnownKinds(m.payloadKinds) && m.cameraBytes < 0x100 && (TENSOR !in m.payloadKinds ==> m.cameraBytes == 0)
    ensures PackSubmit(m).Ok?
  {
    BitmapRoundTrip(m.payloadKinds);
    hide BitmapNumber, PackRecord;
    var v := SubmitValues(m);
    assert |v| == |SUBMIT_LAYOUT| == 28;
    SmallFits(v, SUBMIT_LAYOUT);
  }

  /** The typed builder emits a body that the receiver refuses. */
  lemma RefusedTypedSubmit()
    ensures BuildTypedSubmit(PLAIN, [CLAIMING]).Ok?
    ensures var (m, body) := BuildTypedSubmit(PLAIN, [CLAIMING]).value;
            ValidateSubmit(m, body).Err?
  {
    hide TypedFrames.PackTypedFrames, TypedFrames.FrameKinds, NoTensorProfile, PackSubmit, ValidateSubmit, PackRecord;
    ClaimingPacks();
    var (descriptors, payloads) := TypedFrames.PackTypedFrames([CLAIMING]).value;
    PlainFits(PLAIN.(payloadKinds := {1}, payloadFrameCount := 1));
    FewBytesFit(Regions([], [], descriptors, payloads, [], []));
    TypedSubmitAccepted(PLAIN, [CLAIMING]);
  }

  lemma FewBytesFit(r: Regions)
    requires r.references == [] && r.extensionDescriptors == [] && r.extensionPayloads == []
    requires |r.inlineObjects| < 0x100 && |r.typedPayloads| < 0x100
    requires |r.typedDescriptors| == TypedFrames.DESCRIPTOR_LENGTH
    ensures PackBody(r).Ok?
  {
    hide PackRecord;
    var v := PreludeValues(r);
    assert |v| == |PRELUDE_LAYOUT| == 8;
    SmallFits(v, PRELUDE_LAYOUT);
  }

  /** So does the mixed builder, here beside one camera byte. */
  lemma RefusedMixedSubmit()
    ensures var t := TensorInput(PLAIN, [], [], [7], RawU16, 0, None, None, None);
            && BuildMixedSubmit(t, [CLAIMING]).Ok?
            && var (m, body) := BuildMixedSubmit(t, [CLAIMING]).value;
            ValidateSubmit(m, body).Err?
  {
    hide TypedFrames.PackTypedFrames, TypedFrames.FrameKinds, NoTensorProfile, PackSubmit, ValidateSubmit, PackRecord,
      PackBlocks, PackBody, BlocksSize, BlockBytes, BlockPackable;
    var t := TensorInput(PLAIN, [], [], [7], RawU16, 0, None, None, None);
    ClaimingPacks();
    var (descriptors, payloads) := TypedFrames.PackTypedFrames([CLAIMING]).value;
    TileIndexRoundTrip([], RawU16, 0);
    NoIndex();
    var blocks := InlineBlocks(t, [], TensorBody.PackRegion([]));
    assert blocks == [BlockOf(CAMERA_BLOCK, [7])];
    OneBlockSize(blocks);
    BlocksPackable(blocks);
    BlocksRoundTrip(blocks);
    PackedBlocksSize(blocks);
    assert {TENSOR} + {1} == {0, 1};
    PlainFits(PLAIN.(cameraBytes := 1, payloadKinds := {0, 1}, payloadFrameCount := 1));
    FewBytesFit(Regions(PackBlocks(blocks).value, [], descriptors, payloads, [], []));
    MixedSubmitAccepted(t, [CLAIMING]);
  }

  lemma NoIndex()
    ensures PackTileIndex([], RawU16, 0) == Ok([])
  {
  }
}
