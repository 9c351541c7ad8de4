/**
 * What the validators ask of a body and the decoders of its regions, kind by kind and in numbers
 * (src/nnrp/core/packet.py:923-949, 1026-1057, 1245-1476).
 */
module ObjectContract {
  import opened Outcomes
  import opened Wire
  import opened Bits
  import opened InlineObjects
  import opened Metadata
  import opened TileIndex
  import opened MixedBodies
  import opened SubmitBody
  import opened ResultBody
  import Bodies
  import ExtensionFrames
  import PayloadSpans
  import RecordPositions
  import TensorBody
  import TypedFrames

  /** No block of the kind. */
  ghost predicate Absent(blocks: seq<Block>, kind: nat) {
    forall b :: b in blocks ==> b.header.objectKind != kind
  }

  ghost predicate AtMostOne(blocks: seq<Block>, kind: nat) {
    forall i, j :: 0 <= i < j < |blocks| ==> blocks[i].header.objectKind != kind || blocks[j].header.objectKind != kind
  }

  ghost predicate NoReference(refs: seq<Reference>, kind: nat) {
    forall ref :: ref in refs ==> ref.objectKind != kind
  }

  ghost predicate AtMostOneReference(refs: seq<Reference>, kind: nat) {
    forall i, j :: 0 <= i < j < |refs| ==> refs[i].objectKind != kind || refs[j].objectKind != kind
  }

  /** Filtering by kind keeps the blocks of the kind and no others. */
  lemma {:induction false} InlineOfExact(blocks: seq<Block>, kind: ObjectKind)
    ensures InlineOf(blocks, kind) == [] <==> Absent(blocks, kind)
    ensures |InlineOf(blocks, kind)| <= 1 <==> AtMostOne(blocks, kind)
    ensures forall b :: b in InlineOf(blocks, kind) <==> b in blocks && b.header.objectKind == kind
  {
    if blocks != [] {
      InlineOfExact(blocks[1..], kind);
      assert blocks == [blocks[0]] + blocks[1..];
      if AtMostOne(blocks[1..], kind) && (blocks[0].header.objectKind != kind || Absent(blocks[1..], kind)) {
        assert AtMostOne(blocks, kind);
      }
      if AtMostOne(blocks, kind) {
        forall i, j | 0 <= i < j < |blocks[1..]|
          ensures blocks[1..][i].header.objectKind != kind || blocks[1..][j].header.objectKind != kind
        {
          assert blocks[i + 1].header.objectKind != kind || blocks[j + 1].header.objectKind != kind;
        }
        assert blocks[0].header.objectKind == kind ==> Absent(blocks[1..], kind);
      }
    }
  }

  lemma {:induction false} ReferencesOfExact(refs: seq<Reference>, kind: ObjectKind)
    ensures ReferencesOf(refs, kind) == [] <==> NoReference(refs, kind)
    ensures |ReferencesOf(refs, kind)| <= 1 <==> AtMostOneReference(refs, kind)
  {
    if refs != [] {
      ReferencesOfExact(refs[1..], kind);
      assert refs == [refs[0]] + refs[1..];
      if AtMostOneReference(refs, kind) {
        forall i, j | 0 <= i < j < |refs[1..]|
          ensures refs[1..][i].objectKind != kind || refs[1..][j].objectKind != kind
        {
          assert refs[i + 1].objectKind != kind || refs[j + 1].objectKind != kind;
        }
        assert refs[0].objectKind == kind ==> NoReference(refs[1..], kind);
      }
    }
  }

  /** Counting references of a kind is counting the kind among theirs. */
  lemma {:induction false} ReferencesCounted(refs: seq<Reference>, kind: ObjectKind)
    ensures |ReferencesOf(refs, kind)| == multiset(RefKinds(refs))[kind]
    ensures |RefKinds(refs)| == |refs|
    ensures forall i :: 0 <= i < |refs| ==> RefKinds(refs)[i] == refs[i].objectKind
  {
    if refs != [] {
      ReferencesCounted(refs[1..], kind);
    }
  }

  /** The kinds whose bits are set in a mask, in slot order. */
  ghost function Named(mask: nat): seq<nat> {
    (if mask % 2 == 1 then [1] else []) + (if (mask / 2) % 2 == 1 then [2] else [])
    + (if (mask / 4) % 2 == 1 then [3] else []) + (if (mask / 8) % 2 == 1 then [6] else [])
  }

  lemma LowBits(mask: nat)
    ensures Bit(mask, 0) == (mask % 2 == 1) && Bit(mask, 1) == ((mask / 2) % 2 == 1)
    ensures Bit(mask, 2) == ((mask / 4) % 2 == 1) && Bit(mask, 3) == ((mask / 8) % 2 == 1)
  {
    assert mask / 2 / 2 == mask / 4 && mask / 4 / 2 == mask / 8;
    assert Bit(mask, 1) == Bit(mask / 2, 0);
    assert Bit(mask, 2) == Bit(mask / 2, 1) == Bit(mask / 4, 0);
    assert Bit(mask, 3) == Bit(mask / 2, 2) == Bit(mask / 4, 1) == Bit(mask / 8, 0);
  }

  lemma SlotIff(mask: nat, blocks: seq<Block>, refs: seq<Reference>, bit: nat, kind: ObjectKind)
    ensures var r := CheckSlot(mask, blocks, refs, bit, kind);
            && (r.Ok? <==> && AtMostOne(blocks, kind)
                           && |ReferencesOf(refs, kind)| == (if Bit(mask, bit) then 1 else 0)
                           && (Bit(mask, bit) ==> Absent(blocks, kind)))
            && (r.Ok? ==> r.value == if Bit(mask, bit) then [kind] else [])
  {
    hide InlineOf, ReferencesOf, Bit;
    InlineOfExact(blocks, kind);
  }

  ghost function Part(named: bool, kind: nat): seq<nat> {
    if named then [kind] else []
  }

  /** The kinds of a mask, one part for each slot. */
  lemma NamedByBits(mask: nat)
    ensures Named(mask) == Part(Bit(mask, 0), 1) + Part(Bit(mask, 1), 2) + Part(Bit(mask, 2), 3) + Part(Bit(mask, 3), 6)
  {
    hide Bit;
    LowBits(mask);
  }

  lemma PartCount(named: bool, kind: nat, k: nat)
    ensures multiset(Part(named, kind))[k] == if named && k == kind then 1 else 0
  {
  }

  lemma FourParts(a: seq<nat>, b: seq<nat>, c: seq<nat>, d: seq<nat>, k: nat)
    ensures multiset(a + b + c + d)[k] == multiset(a)[k] + multiset(b)[k] + multiset(c)[k] + multiset(d)[k]
  {
  }

  lemma NamedCount(mask: nat, k: nat)
    ensures multiset(Named(mask))[k] ==
            if (k == 1 && Bit(mask, 0)) || (k == 2 && Bit(mask, 1)) || (k == 3 && Bit(mask, 2))
               || (k == 6 && Bit(mask, 3)) then 1 else 0
  {
    hide Bit, Named, Part;
    NamedByBits(mask);
    FourParts(Part(Bit(mask, 0), 1), Part(Bit(mask, 1), 2), Part(Bit(mask, 2), 3), Part(Bit(mask, 3), 6), k);
    PartCount(Bit(mask, 0), 1, k);
    PartCount(Bit(mask, 1), 2, k);
    PartCount(Bit(mask, 2), 3, k);
    PartCount(Bit(mask, 3), 6, k);
  }

  lemma NamedAbsent(mask: nat, blocks: seq<Block>)
    ensures (forall kind :: kind in Named(mask) ==> Absent(blocks, kind)) <==>
            && (Bit(mask, 0) ==> Absent(blocks, 1)) && (Bit(mask, 1) ==> Absent(blocks, 2))
            && (Bit(mask, 2) ==> Absent(blocks, 3)) && (Bit(mask, 3) ==> Absent(blocks, 6))
  {
    hide Bit, Absent, Named;
    forall kind: nat
      ensures kind in Named(mask) <==>
              || (kind == 1 && Bit(mask, 0)) || (kind == 2 && Bit(mask, 1))
              || (kind == 3 && Bit(mask, 2)) || (kind == 6 && Bit(mask, 3))
    {
      NamedCount(mask, kind);
      InMultiset(Named(mask), kind);
    }
  }

  lemma InMultiset(s: seq<nat>, x: nat)
    ensures x in s <==> multiset(s)[x] > 0
  {
    assert x in s <==> x in multiset(s);
  }

  lemma NamedReferences(mask: nat, refs: seq<Reference>)
    requires RefKinds(refs) == Named(mask)
    ensures |ReferencesOf(refs, CAMERA_BLOCK)| == (if Bit(mask, 0) then 1 else 0)
    ensures |ReferencesOf(refs, TILE_INDEX_BLOCK)| == (if Bit(mask, 1) then 1 else 0)
    ensures |ReferencesOf(refs, TENSOR_SECTION_TABLE)| == (if Bit(mask, 2) then 1 else 0)
    ensures |ReferencesOf(refs, PAYLOAD_LAYOUT_TEMPLATE)| == (if Bit(mask, 3) then 1 else 0)
  {
    hide ReferencesOf, RefKinds, Bit, Named;
    NamedCount(mask, 1);
    NamedCount(mask, 2);
    NamedCount(mask, 3);
    NamedCount(mask, 6);
    ReferencesCounted(refs, CAMERA_BLOCK);
    ReferencesCounted(refs, TILE_INDEX_BLOCK);
    ReferencesCounted(refs, TENSOR_SECTION_TABLE);
    ReferencesCounted(refs, PAYLOAD_LAYOUT_TEMPLATE);
  }

  /** The four slots hold exactly when the references are those the mask names, in order, and none is also inline. */
  lemma SlotsIff(mask: nat, blocks: seq<Block>, refs: seq<Reference>)
    requires mask < 16
    ensures var r := CheckSlots(mask, blocks, refs);
            (r.Ok? && RefKinds(refs) == r.value) <==>
            && RefKinds(refs) == Named(mask)
            && AtMostOne(blocks, 1) && AtMostOne(blocks, 2) && AtMostOne(blocks, 3) && AtMostOne(blocks, 6)
            && (forall kind :: kind in Named(mask) ==> Absent(blocks, kind))
  {
    hide InlineOf, ReferencesOf, RefKinds, Bit, CheckSlot, AtMostOne, Absent, Named;
    SlotIff(mask, blocks, refs, 0, CAMERA_BLOCK);
    SlotIff(mask, blocks, refs, 1, TILE_INDEX_BLOCK);
    SlotIff(mask, blocks, refs, 2, TENSOR_SECTION_TABLE);
    SlotIff(mask, blocks, refs, 3, PAYLOAD_LAYOUT_TEMPLATE);
    NamedByBits(mask);
    if RefKinds(refs) == Named(mask) {
      NamedReferences(mask, refs);
      NamedAbsent(mask, blocks);
    }
  }

  /** An inline object of a kind that occurs at most once is its only block of that kind. */
  lemma OnlyBlock(blocks: seq<Block>, kind: ObjectKind)
    requires AtMostOne(blocks, kind)
    ensures InlineOf(blocks, kind) != [] ==>
              && InlineOf(blocks, kind)[0] in blocks && InlineOf(blocks, kind)[0].header.objectKind == kind
              && forall b :: b in blocks && b.header.objectKind == kind ==> b == InlineOf(blocks, kind)[0]
    ensures InlineOf(blocks, kind) == [] <==> Absent(blocks, kind)
  {
    InlineOfExact(blocks, kind);
  }

  /** What an accepted body owes to `cameraBytes`: an inline camera block of that size, or none and zero bytes. */
  lemma CameraIff(m: Submit, blocks: seq<Block>)
    requires AtMostOne(blocks, 1)
    ensures CheckCamera(m, blocks).Ok? <==>
              && (forall b :: b in blocks && b.header.objectKind == 1 ==> b.header.objectBytes == m.cameraBytes)
              && (Absent(blocks, 1) ==> m.cameraBytes == 0)
  {
    hide InlineOf;
    OnlyBlock(blocks, 1);
  }

  lemma TilesIff(m: Submit, blocks: seq<Block>)
    requires AtMostOne(blocks, 2)
    ensures CheckTiles(m, blocks).Ok? <==>
              && (forall b :: b in blocks && b.header.objectKind == 2 ==>
                    && b.header.objectBytes == m.tileIndexBytes
                    && UnpackTileIndex(b.payload, m.tileIndexMode, m.tileCount, m.tileBaseId).Ok?)
              && (Absent(blocks, 2) && m.tileCount > 0 ==> (m.objectRefMask / 2) % 2 == 1)
              && ((m.objectRefMask / 2) % 2 == 1 ==> m.tileIndexBytes == 0)
  {
    hide InlineOf, Bit, UnpackTileIndex;
    OnlyBlock(blocks, 2);
    LowBits(m.objectRefMask);
  }

  lemma SectionsIff(m: Submit, blocks: seq<Block>)
    requires AtMostOne(blocks, 3)
    ensures CheckSections(m, blocks).Ok? <==>
              && (forall b :: b in blocks && b.header.objectKind == 3 ==>
                    TensorBody.UnpackTensorBody(b.payload, 0, m.sectionCount, Some(m.tileCount)).Ok?)
              && (Absent(blocks, 3) && m.sectionCount > 0 ==> (m.objectRefMask / 4) % 2 == 1)
  {
    hide InlineOf, Bit, TensorBody.UnpackTensorBody;
    OnlyBlock(blocks, 3);
    LowBits(m.objectRefMask);
  }

  lemma StandardIff(blocks: seq<Block>)
    ensures HasStandardInline(blocks) <==> exists b :: b in blocks && b.header.objectKind in {1, 2, 3, 6}
  {
    hide InlineOf;
    InlineOfExact(blocks, 1);
    InlineOfExact(blocks, 2);
    InlineOfExact(blocks, 3);
    InlineOfExact(blocks, 6);
  }

  /**
   The object contract of FRAME_SUBMIT. The mask has four bits, and its bits name, in slot order, exactly the kinds
   referenced: 1 for the camera, 2 for the tile index, 3 for the section table and 6 for the layout template. None of
   them occurs twice, a referenced kind is not inline as well, an inline submit references nothing and a reference
   submit has none of the four inline. The camera block has `cameraBytes` bytes and the tile index block
   `tileIndexBytes`, and zero stands for a missing block; blocks that are there decode, and tiles or sections that the
   metadata counts are inline or referenced.
   */
  lemma CheckObjectsIff(m: Submit, blocks: seq<Block>, refs: seq<Reference>)
    ensures var mask := m.objectRefMask;
            CheckObjects(m, blocks, refs).Ok? <==>
            && mask < 16
            && seq(|refs|, i requires 0 <= i < |refs| => refs[i].objectKind as nat) ==
               (if mask % 2 == 1 then [1] else []) + (if (mask / 2) % 2 == 1 then [2] else [])
               + (if (mask / 4) % 2 == 1 then [3] else []) + (if (mask / 8) % 2 == 1 then [6] else [])
            && AtMostOne(blocks, 1) && AtMostOne(blocks, 2) && AtMostOne(blocks, 3) && AtMostOne(blocks, 6)
            && (forall b, ref :: b in blocks && ref in refs ==> b.header.objectKind != ref.objectKind)
            && (m.submitMode.Inline? ==> mask == 0)
            && (m.submitMode.Reference? ==> forall b :: b in blocks ==> b.header.objectKind !in {1, 2, 3, 6})
            && (forall b :: b in blocks && b.header.objectKind == 1 ==> b.header.objectBytes == m.cameraBytes)
            && (Absent(blocks, 1) ==> m.cameraBytes == 0)
            && (forall b :: b in blocks && b.header.objectKind == 2 ==>
                  && b.header.objectBytes == m.tileIndexBytes
                  && UnpackTileIndex(b.payload, m.tileIndexMode, m.tileCount, m.tileBaseId).Ok?)
            && (Absent(blocks, 2) && m.tileCount > 0 ==> (mask / 2) % 2 == 1)
            && ((mask / 2) % 2 == 1 ==> m.tileIndexBytes == 0)
            && (forall b :: b in blocks && b.header.objectKind == 3 ==>
                  TensorBody.UnpackTensorBody(b.payload, 0, m.sectionCount, Some(m.tileCount)).Ok?)
            && (Absent(blocks, 3) && m.sectionCount > 0 ==> (mask / 4) % 2 == 1)
  {
    hide CheckObjects, AtMostOne, Absent, UnpackTileIndex, TensorBody.UnpackTensorBody, CheckCamera, CheckTiles,
      CheckSections;
    ObjectsSplit(m, blocks, refs);
    if AtMostOne(blocks, 1) && AtMostOne(blocks, 2) && AtMostOne(blocks, 3) {
      CameraIff(m, blocks);
      TilesIff(m, blocks);
      SectionsIff(m, blocks);
    }
  }

  /** The same with the three last checks as they stand. */
  lemma ObjectsSplit(m: Submit, blocks: seq<Block>, refs: seq<Reference>)
    ensures CheckObjects(m, blocks, refs).Ok? <==>
              && m.objectRefMask < 16
              && seq(|refs|, i requires 0 <= i < |refs| => refs[i].objectKind as nat) == Named(m.objectRefMask)
              && AtMostOne(blocks, 1) && AtMostOne(blocks, 2) && AtMostOne(blocks, 3) && AtMostOne(blocks, 6)
              && (forall b, ref :: b in blocks && ref in refs ==> b.header.objectKind != ref.objectKind)
              && (m.submitMode.Inline? ==> m.objectRefMask == 0)
              && (m.submitMode.Reference? ==> forall b :: b in blocks ==> b.header.objectKind !in {1, 2, 3, 6})
              && CheckCamera(m, blocks).Ok? && CheckTiles(m, blocks).Ok? && CheckSections(m, blocks).Ok?
  {
    hide RefKinds, CheckSlots, CheckCamera, CheckTiles, CheckSections, AtMostOne, HasStandardInline, Absent, Named;
    StandardIff(blocks);
    if m.objectRefMask < 16 {
      SlotsNamed(m.objectRefMask, blocks, refs);
      if m.objectRefMask == 0 {
        NamedNone(refs);
      }
    }
  }

  lemma NamedNone(refs: seq<Reference>)
    ensures seq(|refs|, i requires 0 <= i < |refs| => refs[i].objectKind as nat) == Named(0) <==> refs == []
  {
  }

  lemma SlotsNamed(mask: nat, blocks: seq<Block>, refs: seq<Reference>)
    requires mask < 16
    ensures var r := CheckSlots(mask, blocks, refs);
            (r.Ok? && RefKinds(refs) == r.value) <==>
            && seq(|refs|, i requires 0 <= i < |refs| => refs[i].objectKind as nat) == Named(mask)
            && AtMostOne(blocks, 1) && AtMostOne(blocks, 2) && AtMostOne(blocks, 3) && AtMostOne(blocks, 6)
            && (forall b, ref :: b in blocks && ref in refs ==> b.header.objectKind != ref.objectKind)
  {
    hide RefKinds, CheckSlots, AtMostOne, Absent, Named;
    SlotsIff(mask, blocks, refs);
    KindsAre(refs, Named(mask));
    ReferencedNotInline(blocks, refs);
  }

  lemma KindsAre(refs: seq<Reference>, kinds: seq<nat>)
    ensures RefKinds(refs) == kinds <==> seq(|refs|, i requires 0 <= i < |refs| => refs[i].objectKind as nat) == kinds
  {
    hide RefKinds;
    ReferencesCounted(refs, CAMERA_BLOCK);
  }

  lemma ReferencedNotInline(blocks: seq<Block>, refs: seq<Reference>)
    ensures (forall kind :: kind in RefKinds(refs) ==> Absent(blocks, kind)) <==>
            (forall b, ref :: b in blocks && ref in refs ==> b.header.objectKind != ref.objectKind)
  {
    hide RefKinds;
    ReferencesCounted(refs, CAMERA_BLOCK);
    if forall kind :: kind in RefKinds(refs) ==> Absent(blocks, kind) {
      forall b, ref | b in blocks && ref in refs
        ensures b.header.objectKind != ref.objectKind
      {
        var i :| 0 <= i < |refs| && refs[i] == ref;
        assert RefKinds(refs)[i] in RefKinds(refs);
      }
    }
  }

  /** The order of references compares kind, namespace and the two halves of the key, the first that differ. */
  lemma BeforeIff(a: Reference, b: Reference)
    ensures var x, y := [a.objectKind as nat, a.cacheNamespace, a.keyHi, a.keyLo],
                        [b.objectKind as nat, b.cacheNamespace, b.keyHi, b.keyLo];
            Before(a, b) <==> exists k :: 0 <= k < 4 && x[k] < y[k] && x[..k] == y[..k]
  {
    var x, y := [a.objectKind as nat, a.cacheNamespace, a.keyHi, a.keyLo],
                [b.objectKind as nat, b.cacheNamespace, b.keyHi, b.keyLo];
    if Before(a, b) {
      var k := if x[0] != y[0] then 0 else if x[1] != y[1] then 1 else if x[2] != y[2] then 2 else 3;
      assert x[k] < y[k] && x[..k] == y[..k];
    }
    if k :| 0 <= k < 4 && x[k] < y[k] && x[..k] == y[..k] {
      assert forall i :: 0 <= i < k ==> x[..k][i] == y[..k][i];
      assert k > 0 ==> x[0] == y[0];
      assert k > 1 ==> x[1] == y[1];
      assert k > 2 ==> x[2] == y[2];
    }
  }

  lemma PushTilesIff(m: Push, blocks: seq<Block>, refs: seq<Reference>)
    requires AtMostOne(blocks, 2)
    ensures CheckPushTiles(m, blocks, refs).Ok? <==>
              && AtMostOneReference(refs, 2) && (Absent(blocks, 2) || NoReference(refs, 2))
              && (forall b :: b in blocks && b.header.objectKind == 2 ==>
                    && b.header.objectBytes == m.tileIndexBytes
                    && UnpackTileIndex(b.payload, if m.tileIndexBytes != 0 then RawU16 else DenseRange, m.tileCount,
                                       m.tileBaseId).Ok?)
              && (Absent(blocks, 2) && NoReference(refs, 2) ==> m.tileCount == 0)
              && (NoReference(refs, 2) || m.tileIndexBytes == 0)
  {
    hide InlineOf, ReferencesOf, UnpackTileIndex, AtMostOneReference, NoReference;
    OnlyBlock(blocks, 2);
    ReferencesOfExact(refs, 2);
  }

  lemma PushSectionsIff(m: Push, blocks: seq<Block>, refs: seq<Reference>)
    requires AtMostOne(blocks, 3)
    ensures CheckPushSections(m, blocks, refs).Ok? <==>
              && AtMostOneReference(refs, 3) && (Absent(blocks, 3) || NoReference(refs, 3))
              && (forall b :: b in blocks && b.header.objectKind == 3 ==>
                    TensorBody.UnpackTensorBody(b.payload, 0, m.sectionCount, Some(m.tileCount)).Ok?)
              && (Absent(blocks, 3) && NoReference(refs, 3) ==> m.sectionCount == 0)
  {
    hide InlineOf, ReferencesOf, TensorBody.UnpackTensorBody, AtMostOneReference, NoReference;
    OnlyBlock(blocks, 3);
    ReferencesOfExact(refs, 3);
  }

  /**
   The object contract of RESULT_PUSH: references strictly increase, and of tile index (kind 2) and section table
   (kind 3) there is at most one, inline or referenced, and one if the metadata counts any tiles or sections. An inline
   tile index has `tileIndexBytes` bytes and decodes as raw ids, or as a dense range when it has none; a referenced one
   leaves `tileIndexBytes` zero.
   */
  lemma CheckPushObjectsIff(m: Push, blocks: seq<Block>, refs: seq<Reference>)
    ensures CheckPushObjects(m, blocks, refs).Ok? <==>
              && (forall i, j :: 0 <= i < j < |refs| ==> Before(refs[i], refs[j]))
              && AtMostOne(blocks, 2) && AtMostOneReference(refs, 2) && (Absent(blocks, 2) || NoReference(refs, 2))
              && AtMostOne(blocks, 3) && AtMostOneReference(refs, 3) && (Absent(blocks, 3) || NoReference(refs, 3))
              && (forall b :: b in blocks && b.header.objectKind == 2 ==>
                    && b.header.objectBytes == m.tileIndexBytes
                    && UnpackTileIndex(b.payload, if m.tileIndexBytes != 0 then RawU16 else DenseRange, m.tileCount,
                                       m.tileBaseId).Ok?)
              && (Absent(blocks, 2) && NoReference(refs, 2) ==> m.tileCount == 0)
              && (NoReference(refs, 2) || m.tileIndexBytes == 0)
              && (forall b :: b in blocks && b.header.objectKind == 3 ==>
                    TensorBody.UnpackTensorBody(b.payload, 0, m.sectionCount, Some(m.tileCount)).Ok?)
              && (Absent(blocks, 3) && NoReference(refs, 3) ==> m.sectionCount == 0)
  {
    hide InlineOf, ReferencesOf, CheckPushTiles, CheckPushSections, CheckOrder, Before, AtMostOne, Absent,
      AtMostOneReference, NoReference, UnpackTileIndex, TensorBody.UnpackTensorBody;
    CheckOrderSorts(refs);
    InlineOfExact(blocks, 2);
    InlineOfExact(blocks, 3);
    if AtMostOne(blocks, 2) && AtMostOne(blocks, 3) {
      PushTilesIff(m, blocks, refs);
      PushSectionsIff(m, blocks, refs);
    }
  }

  /**
   The typed contract: as many descriptors as the metadata counts and no payload bytes when it counts none; none
   claims the TENSOR kind, 0, or the TENSOR profile, 1; and their kinds are those of the bitmap other than TENSOR.
   */
  lemma CheckTypedIff(kinds: set<nat>, frameCount: nat, r: Bodies.Regions)
    ensures CheckTyped(kinds, frameCount, r).Ok? <==>
              && TypedFrames.UnpackDescriptors(r.typedDescriptors).Ok?
              && var ds := TypedFrames.UnpackDescriptors(r.typedDescriptors).value;
              && |ds| == frameCount
              && (frameCount == 0 ==> r.typedPayloads == [])
              && (forall i :: 0 <= i < |ds| ==> ds[i].about.kind != 0 && ds[i].about.profileId != 1)
              && (forall i :: 0 <= i < |ds| ==> ds[i].about.kind in kinds)
              && (forall kind :: kind in kinds && kind != 0 ==>
                    exists i :: 0 <= i < |ds| && ds[i].about.kind == kind)
  {
    hide TypedFrames.UnpackDescriptors;
    if TypedFrames.UnpackDescriptors(r.typedDescriptors).Ok? {
      var ds := TypedFrames.UnpackDescriptors(r.typedDescriptors).value;
      assert forall i :: 0 <= i < |ds| ==> ds[i] in ds;
      if forall i :: 0 <= i < |ds| ==> ds[i].about.kind != 0 {
        KindsIff(ds, kinds);
      }
    }
  }

  lemma KindsIff(ds: seq<TypedFrames.Descriptor>, kinds: set<nat>)
    requires forall i :: 0 <= i < |ds| ==> ds[i].about.kind != 0
    ensures TypedFrames.Kinds(ds) == kinds - {TENSOR} <==>
              && (forall i :: 0 <= i < |ds| ==> ds[i].about.kind in kinds)
              && (forall kind :: kind in kinds && kind != 0 ==>
                    exists i :: 0 <= i < |ds| && ds[i].about.kind == kind)
  {
    var found := TypedFrames.Kinds(ds);
    assert forall i :: 0 <= i < |ds| ==> ds[i].about.kind in found;
    if (forall i :: 0 <= i < |ds| ==> ds[i].about.kind in kinds)
       && (forall kind :: kind in kinds && kind != 0 ==> exists i :: 0 <= i < |ds| && ds[i].about.kind == kind) {
      assert found == kinds - {TENSOR};
    }
    if found == kinds - {TENSOR} {
      assert forall kind :: kind in kinds && kind != 0 ==> kind in found;
    }
  }

  // The validators and decoders as a whole

  /** A FRAME_SUBMIT body is accepted exactly when it is a sound body that keeps both contracts. */
  lemma ValidateSubmitIff(m: Submit, body: bytes)
    ensures ValidateSubmit(m, body).Ok? <==>
              && Bodies.UnpackBody(body).Ok?
              && var r := Bodies.UnpackBody(body).value;
              && CheckTyped(m.payloadKinds, m.payloadFrameCount, r).Ok?
              && UnpackBlocks(r.inlineObjects).Ok? && UnpackReferences(r.references).Ok?
              && CheckObjects(m, UnpackBlocks(r.inlineObjects).value, UnpackReferences(r.references).value).Ok?
    ensures ValidateSubmit(m, body).Ok? ==> ValidateSubmit(m, body) == Bodies.UnpackBody(body)
  {
    hide Bodies.UnpackBody, CheckTyped, UnpackBlocks, UnpackReferences, CheckObjects;
  }

  /** For RESULT_PUSH also the tiles must be covered or dropped, at least one of them dropped in a partial result. */
  lemma ValidatePushIff(m: Push, body: bytes)
    ensures ValidatePush(m, body).Ok? <==>
              && Bodies.UnpackBody(body).Ok?
              && (0 in m.payloadKinds ==>
                    && m.coveredTileCount + m.droppedTileCount == m.tileCount
                    && (m.resultClass == 1 || (m.resultFlags / 4) % 2 == 1 ==> m.droppedTileCount > 0))
              && var r := Bodies.UnpackBody(body).value;
              && CheckTyped(m.payloadKinds, m.payloadFrameCount, r).Ok?
              && UnpackBlocks(r.inlineObjects).Ok? && UnpackReferences(r.references).Ok?
              && CheckPushObjects(m, UnpackBlocks(r.inlineObjects).value, UnpackReferences(r.references).value).Ok?
    ensures ValidatePush(m, body).Ok? ==> ValidatePush(m, body) == Bodies.UnpackBody(body)
  {
    hide Bodies.UnpackBody, CheckTyped, UnpackBlocks, UnpackReferences, CheckPushObjects;
  }

  /**
   Typed frames are read exactly when their descriptors unpack, their payloads lie in the region in order and without
   overlap, and their kinds are those of the bitmap other than TENSOR; each frame is then what its descriptor says.
   */
  lemma TypedFramesIff(descriptors: bytes, region: bytes, bitmap: set<nat>)
    ensures TypedFrames.UnpackTypedFrames(descriptors, region, bitmap).Ok? <==>
              && TypedFrames.UnpackDescriptors(descriptors).Ok?
              && var ds := TypedFrames.UnpackDescriptors(descriptors).value;
              && RecordPositions.InOrder(PayloadSpans.SpansOf(ds), |region|)
              && (forall kind: nat :: kind in bitmap && kind != 0 <==> Occurs(ds, kind))
    ensures TypedFrames.UnpackTypedFrames(descriptors, region, bitmap).Ok? ==>
              var ds, frames := TypedFrames.UnpackDescriptors(descriptors).value,
                                TypedFrames.UnpackTypedFrames(descriptors, region, bitmap).value;
              |frames| == |ds| && forall i :: 0 <= i < |ds| ==>
                && frames[i].about == ds[i].about
                && ds[i].span.offset + ds[i].span.length <= |region|
                && frames[i].payload == region[ds[i].span.offset..ds[i].span.offset + ds[i].span.length]
  {
    hide TypedFrames.UnpackDescriptors, PayloadSpans.ValidateOffsets;
    if TypedFrames.UnpackDescriptors(descriptors).Ok? {
      var ds := TypedFrames.UnpackDescriptors(descriptors).value;
      PayloadSpans.OffsetsDisjoint(PayloadSpans.SpansOf(ds), |region|);
      KindsAmong(ds, bitmap);
      if TypedFrames.UnpackTypedFrames(descriptors, region, bitmap).Ok? {
        PayloadSpans.ValidInBounds(ds, |region|);
      }
    }
  }

  ghost predicate Occurs(ds: seq<TypedFrames.Descriptor>, kind: nat) {
    exists i :: 0 <= i < |ds| && ds[i].about.kind == kind
  }

  lemma KindsAmong(ds: seq<TypedFrames.Descriptor>, bitmap: set<nat>)
    ensures TypedFrames.Kinds(ds) == bitmap - {TENSOR} <==>
            forall kind: nat :: kind in bitmap && kind != 0 <==> Occurs(ds, kind)
  {
    var found, rest := TypedFrames.Kinds(ds), bitmap - {TENSOR};
    assert forall kind: nat :: kind in found <==> Occurs(ds, kind);
    hide TypedFrames.Kinds, Occurs;
    assert forall kind: nat :: kind in rest <==> kind in bitmap && kind != 0;
    SameKinds(found, rest);
  }

  lemma SameKinds(a: set<nat>, b: set<nat>)
    ensures a == b <==> forall kind: nat :: kind in a <==> kind in b
  {
    if forall kind: nat :: kind in a <==> kind in b {
      assert forall kind :: kind in a ==> kind in b;
      assert forall kind :: kind in b ==> kind in a;
    }
  }

  /** Typed frames pack exactly when none is a tensor and every descriptor fits its record. */
  lemma TypedFramesPackIff(frames: seq<TypedFrames.Frame>)
    ensures TypedFrames.PackTypedFrames(frames).Ok? <==>
              && (forall f :: f in frames ==> f.about.kind != 0)
              && forall d :: d in PayloadSpans.DescriptorsOf(frames, 0) ==> TypedFrames.DescriptorFits(d)
  {
    hide TypedFrames.PackDescriptors, TypedFrames.DescriptorFits, PayloadSpans.DescriptorsOf;
    TypedFrames.DescriptorsRoundTrip(PayloadSpans.DescriptorsOf(frames, 0));
  }

  /**
   Extension frames are read exactly when their descriptors unpack, their payloads lie in the region in order and
   without overlap, and, if the reader names kinds, no critical frame is of another kind.
   */
  lemma ExtensionFramesIff(descriptors: bytes, region: bytes, known: ExtensionFrames.Known)
    ensures ExtensionFrames.UnpackExtensionFrames(descriptors, region, known).Ok? <==>
              && ExtensionFrames.UnpackDescriptors(descriptors).Ok?
              && var ds := ExtensionFrames.UnpackDescriptors(descriptors).value;
              && RecordPositions.InOrder(PayloadSpans.SpansOf(ds), |region|)
              && (known.Some? ==> forall i :: 0 <= i < |ds| && ds[i].about.critical ==> ds[i].about.kind in known.value)
  {
    hide ExtensionFrames.UnpackDescriptors, PayloadSpans.ValidateOffsets;
    if ExtensionFrames.UnpackDescriptors(descriptors).Ok? {
      var ds := ExtensionFrames.UnpackDescriptors(descriptors).value;
      PayloadSpans.OffsetsDisjoint(PayloadSpans.SpansOf(ds), |region|);
      if PayloadSpans.ValidateOffsets(PayloadSpans.SpansOf(ds), |region|).Ok? {
        PayloadSpans.ValidInBounds(ds, |region|);
        CutIff(ds, region, known);
      }
    }
  }

  lemma {:induction false} CutIff(
    ds: seq<ExtensionFrames.Descriptor>, region: bytes, known: ExtensionFrames.Known)
    requires forall i :: 0 <= i < |ds| ==> ds[i].span.End() <= |region|
    ensures ExtensionFrames.CutFrames(ds, region, known).Ok? <==>
            (known.Some? ==> forall i :: 0 <= i < |ds| && ds[i].about.critical ==> ds[i].about.kind in known.value)
  {
    if ds != [] {
      CutIff(ds[1..], region, known);
      assert forall i :: 0 < i < |ds| ==> ds[i] == ds[1..][i - 1];
    }
  }

  /** A mixed submit is built exactly of at least one frame and some tensor content, when both parts pack. */
  lemma MixedSubmitBuildsIff(t: TensorInput, frames: seq<TypedFrames.Frame>)
    requires t.cameraRef.None? && t.tileRef.None? && t.sectionRef.None?
    ensures BuildMixedSubmit(t, frames).Ok? <==>
              && frames != [] && TypedFrames.PackTypedFrames(frames).Ok?
              && (t.camera != [] || t.tileIds != [] || t.sections != [])
              && TensorBody.LegalSections(t.sections, |t.tileIds|)
              && Legal(t.tileIds, t.tileIndexMode, t.tileBaseId) && t.tileBaseId >= 0
              && var blocks := InlineBlocks(t, TileIndexOf(t), TableOf(t));
              && PackBlocks(blocks).Ok?
              && var (descriptors, payloads) := TypedFrames.PackTypedFrames(frames).value;
              && Bodies.PackBody(Bodies.Regions(PackBlocks(blocks).value, [], descriptors, payloads, [], [])).Ok?
              && PackSubmit(SubmitMetadata(t, Inline, 0, TileIndexOf(t))
                            .(payloadKinds := {0} + TypedFrames.FrameKinds(frames), payloadFrameCount := |frames|)).Ok?
  {
    hide TensorBody.PackSections, PackTileIndex, PackBlocks, Bodies.PackBody, PackSubmit, TypedFrames.PackTypedFrames,
      InlineBlocks, TypedFrames.FrameKinds, TensorBody.LegalSections, Legal, TensorBody.PackRegion, SubmitMetadata;
    TensorBody.PackSectionsAccepts(t.sections, |t.tileIds|, None);
    TileIndexRoundTrip(t.tileIds, t.tileIndexMode, t.tileBaseId);
  }

  /** A mixed result is built exactly of at least one frame and some tiles or sections, when both parts pack. */
  lemma MixedPushBuildsIff(p: PushInput, frames: seq<TypedFrames.Frame>)
    ensures BuildMixedPush(p, frames).Ok? <==>
              && frames != [] && TypedFrames.PackTypedFrames(frames).Ok? && (p.tileIds != [] || p.sections != [])
              && var typed := TypedFrames.PackTypedFrames(frames).value;
              && AssemblePush(p, typed, TypedFrames.FrameKinds(frames), |frames|).Ok?
  {
    hide AssemblePush, TypedFrames.PackTypedFrames, TypedFrames.FrameKinds;
  }
}
