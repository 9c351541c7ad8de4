/** Metadata records of FRAME_SUBMIT and RESULT_PUSH (src/nnrp/core/messages/data.py:404-753). */
module Metadata {
  import opened Outcomes
  import opened Wire
  import opened Bits
  import TileIndex

  /** Bit 0 of a payload-kind bitmap; bits 0 to 6 are declared. */
  const TENSOR: nat := 0
  const KIND_COUNT: nat := 7

  datatype SubmitMode = Inline | Reference | Mixed

  /** A payload-kind bitmap is the set of its bit numbers. */
  function BitmapNumber(kinds: set<nat>): nat {
    FromBits(seq(KIND_COUNT, k requires 0 <= k < KIND_COUNT => k in kinds))
  }

  function BitmapKinds(number: nat): set<nat> {
    set k | 0 <= k < KIND_COUNT && Bit(number, k)
  }

  predicate KnownKinds(kinds: set<nat>) {
    forall k :: k in kinds ==> k < KIND_COUNT
  }

  lemma BitmapRoundTrip(kinds: set<nat>)
    requires KnownKinds(kinds)
    ensures BitmapNumber(kinds) < 128 && BitmapKinds(BitmapNumber(kinds)) == kinds
  {
    var bits := seq(KIND_COUNT, k requires 0 <= k < KIND_COUNT => k in kinds);
    assert Pow2(7) == 128 by {
      assert Pow2(3) == 8 && Pow2(5) == 32;
    }
    forall k: nat | k < KIND_COUNT
      ensures Bit(FromBits(bits), k) <==> k in kinds
    {
      BitOfFromBits(bits, k);
    }
  }

  /** The fields of `FrameSubmitMetadata`; its reserved fields are written as zero. */
  datatype Submit = Submit(
    srcWidth: nat,
    srcHeight: nat,
    tileWidth: nat,
    tileHeight: nat,
    tileCount: nat,
    sectionCount: nat,
    frameClass: nat,
    inputProfile: nat,
    tileIndexMode: TileIndex.Mode,
    latencyBudgetMs: nat,
    targetFpsX100: nat,
    retryOfFrame: nat,
    tileBaseId: nat,
    cameraBytes: nat,
    tileIndexBytes: nat,
    operationId: nat,
    submitMode: SubmitMode,
    budgetPolicy: nat,
    lossTolerance: nat,
    objectRefMask: nat,
    dependencyFrameId: nat,
    payloadKinds: set<nat>,
    payloadFrameCount: nat)

  const SUBMIT_LENGTH: nat := 72

  const SUBMIT_LAYOUT: seq<nat> :=
    [2, 2, 2, 2, 2, 2] + [1, 1, 1, 1] + [2, 2] + [4, 4, 4, 4, 4] + [8, 4] + [1, 1, 1, 1] + [4, 4, 4] + [2, 2]

  lemma SubmitSize()
    ensures Size(SUBMIT_LAYOUT) == SUBMIT_LENGTH
  {
    SizeConcat([2, 2, 2, 2, 2, 2], [1, 1, 1, 1]);
    SizeConcat([2, 2, 2, 2, 2, 2] + [1, 1, 1, 1], [2, 2]);
    SizeConcat([2, 2, 2, 2, 2, 2] + [1, 1, 1, 1] + [2, 2], [4, 4, 4, 4, 4]);
    SizeConcat([2, 2, 2, 2, 2, 2] + [1, 1, 1, 1] + [2, 2] + [4, 4, 4, 4, 4], [8, 4]);
    SizeConcat([2, 2, 2, 2, 2, 2] + [1, 1, 1, 1] + [2, 2] + [4, 4, 4, 4, 4] + [8, 4], [1, 1, 1, 1]);
    SizeConcat([2, 2, 2, 2, 2, 2] + [1, 1, 1, 1] + [2, 2] + [4, 4, 4, 4, 4] + [8, 4] + [1, 1, 1, 1], [4, 4, 4]);
    SizeConcat([2, 2, 2, 2, 2, 2] + [1, 1, 1, 1] + [2, 2] + [4, 4, 4, 4, 4] + [8, 4] + [1, 1, 1, 1] + [4, 4, 4],
               [2, 2]);
  }

  function ModeCode(mode: TileIndex.Mode): nat {
    match mode
    case DenseRange => 0
    case RawU16 => 1
    case DeltaU16 => 2
    case Bitset => 3
  }

  function ModeOfCode(code: nat): TileIndex.Mode
    requires code < 4
  {
    if code == 0 then TileIndex.DenseRange else if code == 1 then TileIndex.RawU16
    else if code == 2 then TileIndex.DeltaU16 else TileIndex.Bitset
  }

  function SubmitModeCode(mode: SubmitMode): nat {
    match mode
    case Inline => 0
    case Reference => 1
    case Mixed => 2
  }

  function SubmitModeOfCode(code: nat): SubmitMode
    requires code < 3
  {
    if code == 0 then Inline else if code == 1 then Reference else Mixed
  }

  /** The checks `FrameSubmitMetadata` makes when it is constructed. */
  predicate SubmitConsistent(m: Submit) {
    && m.inputProfile <= 2
    && m.budgetPolicy <= 0xF
    && (m.lossTolerance <= 3 || m.lossTolerance == 0xFF)
    && KnownKinds(m.payloadKinds)
    && m.operationId != 0
    && (TENSOR !in m.payloadKinds ==>
          m.srcWidth == 0 && m.srcHeight == 0 && m.tileWidth == 0 && m.tileHeight == 0 && m.tileCount == 0
          && m.sectionCount == 0 && m.tileBaseId == 0 && m.cameraBytes == 0 && m.tileIndexBytes == 0
          && m.inputProfile == 0)
  }

  function SubmitValues(m: Submit): seq<nat> {
    [m.srcWidth, m.srcHeight, m.tileWidth, m.tileHeight, m.tileCount, m.sectionCount, m.frameClass, m.inputProfile,
     ModeCode(m.tileIndexMode), 0, m.latencyBudgetMs, m.targetFpsX100, m.retryOfFrame, m.tileBaseId, m.cameraBytes,
     m.tileIndexBytes, 0, m.operationId, 0, SubmitModeCode(m.submitMode), m.budgetPolicy, m.lossTolerance, 0,
     m.objectRefMask, m.dependencyFrameId, BitmapNumber(m.payloadKinds), m.payloadFrameCount, 0]
  }

  predicate SubmitFits(m: Submit) {
    SubmitConsistent(m) && Fits(SubmitValues(m), SUBMIT_LAYOUT)
  }

  function PackSubmit(m: Submit): (r: Result<bytes, Fault>) {
    if SubmitFits(m) then Ok(PackRecord(SubmitValues(m), SUBMIT_LAYOUT)) else Err(OutOfRange)
  }

  function SubmitOfValues(v: seq<nat>): (r: Result<Submit, Fault>)
    requires |v| == 28
  {
    if v[8] >= 4 || v[19] >= 3 || v[25] >= 128 then Err(BadEnum)
    else
      var m := Submit(v[0], v[1], v[2], v[3], v[4], v[5], v[6], v[7], ModeOfCode(v[8]), v[10], v[11], v[12], v[13],
                      v[14], v[15], v[17], SubmitModeOfCode(v[19]), v[20], v[21], v[23], v[24],
                      BitmapKinds(v[25]), v[26]);
      if SubmitConsistent(m) then Ok(m) else Err(BadEnum)
  }

  function UnpackSubmit(s: bytes): (r: Result<Submit, Fault>) {
    SubmitSize();
    if |s| != SUBMIT_LENGTH then Err(BadLength) else SubmitOfValues(UnpackRecord(s, SUBMIT_LAYOUT))
  }

  lemma SubmitValuesRoundTrip(m: Submit)
    requires SubmitConsistent(m)
    ensures SubmitOfValues(SubmitValues(m)) == Ok(m)
  {
    hide BitmapNumber, BitmapKinds;
    BitmapRoundTrip(m.payloadKinds);
    assert ModeOfCode(ModeCode(m.tileIndexMode)) == m.tileIndexMode;
    assert SubmitModeOfCode(SubmitModeCode(m.submitMode)) == m.submitMode;
  }

  /** Submit metadata that can be sent is read back unchanged. */
  lemma SubmitRoundTrip(m: Submit)
    ensures PackSubmit(m).Ok? <==> SubmitFits(m)
    ensures SubmitFits(m) ==> UnpackSubmit(PackSubmit(m).value) == Ok(m)
  {
    hide SubmitOfValues, SubmitValues, Fits, SubmitConsistent;
    if SubmitFits(m) {
      SubmitSize();
      UnpackPackRecord(SubmitValues(m), SUBMIT_LAYOUT);
      SubmitValuesRoundTrip(m);
    }
  }

  /** The fields of `ResultPushMetadata` that its validators use; the others are free numbers. */
  datatype Push = Push(
    resultClass: nat,
    resultFlags: nat,
    reusedFrameId: nat,
    sectionCount: nat,
    tileCount: nat,
    tileBaseId: nat,
    tileIndexBytes: nat,
    coveredTileCount: nat,
    droppedTileCount: nat,
    payloadKinds: set<nat>,
    payloadFrameCount: nat)

  const PARTIAL_CLASS: nat := 1
  const STALE_REUSE_CLASS: nat := 2

  predicate IsStale(m: Push) {
    m.resultClass == STALE_REUSE_CLASS || m.resultFlags % 2 == 1
  }

  predicate IsPartial(m: Push) {
    m.resultClass == PARTIAL_CLASS || (m.resultFlags / 4) % 2 == 1
  }

  /** Coverage adds up, and a partial result dropped something. */
  predicate CoverageAgrees(m: Push) {
    TENSOR in m.payloadKinds ==>
      && m.coveredTileCount + m.droppedTileCount == m.tileCount
      && (IsPartial(m) ==> m.droppedTileCount > 0)
  }

  /** The checks `ResultPushMetadata` makes when it is constructed. */
  predicate PushConsistent(m: Push) {
    && m.resultClass <= 3
    && m.resultFlags <= 7
    && KnownKinds(m.payloadKinds)
    && (IsStale(m) <==> m.reusedFrameId != 0)
    && CoverageAgrees(m)
    && (TENSOR !in m.payloadKinds ==>
          m.sectionCount == 0 && m.tileCount == 0 && m.tileBaseId == 0 && m.tileIndexBytes == 0
          && m.coveredTileCount == 0 && m.droppedTileCount == 0)
  }

  /** Ranges of the fields above in the wire record. */
  predicate PushFits(m: Push) {
    && PushConsistent(m)
    && m.reusedFrameId < 0x1_0000_0000
    && m.sectionCount < 0x1_0000 && m.tileCount < 0x1_0000
    && m.tileBaseId < 0x1_0000_0000 && m.tileIndexBytes < 0x1_0000_0000
    && m.coveredTileCount < 0x1_0000 && m.droppedTileCount < 0x1_0000
    && m.payloadFrameCount < 0x1_0000
  }

  /**
   Which RESULT_PUSH metadata can be sent. Class 2 or flag 1 marks a reused result, which names a frame; class 1 or
   flag 4 marks a partial one, which dropped a tile; with tensors every tile is covered or dropped, and without them
   every tensor field is zero.
   */
  lemma PushFitsIff(m: Push)
    ensures PushFits(m) <==>
            && m.resultClass <= 3 && m.resultFlags <= 7
            && (m.reusedFrameId != 0 <==> m.resultClass == 2 || m.resultFlags in {1, 3, 5, 7})
            && m.reusedFrameId < 0x1_0000_0000 && m.tileBaseId < 0x1_0000_0000 && m.tileIndexBytes < 0x1_0000_0000
            && m.sectionCount < 0x1_0000 && m.tileCount < 0x1_0000 && m.payloadFrameCount < 0x1_0000
            && m.coveredTileCount < 0x1_0000 && m.droppedTileCount < 0x1_0000
            && (forall k :: k in m.payloadKinds ==> k <= 6)
            && if 0 in m.payloadKinds
               then && m.coveredTileCount + m.droppedTileCount == m.tileCount
                    && (m.resultClass == 1 || m.resultFlags in {4, 5, 6, 7} ==> m.droppedTileCount > 0)
               else && m.sectionCount == 0 && m.tileCount == 0 && m.tileBaseId == 0 && m.tileIndexBytes == 0
                    && m.coveredTileCount == 0 && m.droppedTileCount == 0
  {
  }
}
