/** Tensor sections: one role's payload for every tile (src/nnrp/core/packet.py:1573-1604 and 2506-2730). */
module TensorSections {
  import opened Outcomes
  import opened Wire
  import opened Alignment

  type DTypeCode = code: nat | code < 8
  type LayoutCode = code: nat | code < 2
  type ScaleCode = code: nat | code < 3

  datatype SectionDesc = SectionDesc(
    roleId: nat,
    codecId: nat,
    dtypeId: DTypeCode,
    layoutId: LayoutCode,
    scalePolicy: ScaleCode,
    flags: nat,
    elementCount: nat,
    codecTableBytes: nat,
    lengthTableBytes: nat,
    payloadBytes: nat,
    payloadStride: nat,
    reserved: nat)

  const DESC_LENGTH: nat := 32

  const DESC_LAYOUT: seq<nat> := [2] + [1, 1, 1, 1] + [2] + [4, 4, 4, 4, 4, 4]

  lemma DescSize()
    ensures Size(DESC_LAYOUT) == DESC_LENGTH
  {
    SizeConcat([2] + [1, 1, 1, 1] + [2], [4, 4, 4, 4, 4, 4]);
    SizeConcat([2] + [1, 1, 1, 1], [2]);
    SizeConcat([2], [1, 1, 1, 1]);
  }

  function DescValues(d: SectionDesc): seq<nat> {
    [d.roleId, d.codecId, d.dtypeId, d.layoutId, d.scalePolicy, d.flags, d.elementCount, d.codecTableBytes,
     d.lengthTableBytes, d.payloadBytes, d.payloadStride, d.reserved]
  }

  predicate DescFits(d: SectionDesc) {
    Fits(DescValues(d), DESC_LAYOUT)
  }

  lemma FitsTwelve(values: seq<nat>, layout: seq<nat>)
    requires |values| == |layout| == 12
    ensures Fits(values, layout) <==>
            && values[0] < Capacity(layout[0]) && values[1] < Capacity(layout[1]) && values[2] < Capacity(layout[2])
            && values[3] < Capacity(layout[3]) && values[4] < Capacity(layout[4]) && values[5] < Capacity(layout[5])
            && values[6] < Capacity(layout[6]) && values[7] < Capacity(layout[7]) && values[8] < Capacity(layout[8])
            && values[9] < Capacity(layout[9]) && values[10] < Capacity(layout[10])
            && values[11] < Capacity(layout[11])
  {
    hide Capacity;
  }

  lemma DescFitsIff(d: SectionDesc)
    ensures DescFits(d) <==>
            && d.roleId < U16 && d.codecId < 0x100 && d.flags < U16 && d.elementCount < U32
            && d.codecTableBytes < U32 && d.lengthTableBytes < U32 && d.payloadBytes < U32 && d.payloadStride < U32
            && d.reserved < U32
  {
    Capacities();
    var v, l := DescValues(d), DESC_LAYOUT;
    assert |v| == |l| == 12;
    assert l[0] == l[5] == 2 && l[1] == l[2] == l[3] == l[4] == 1;
    assert l[6] == l[7] == l[8] == l[9] == l[10] == l[11] == 4;
    hide Capacity;
    FitsTwelve(v, l);
  }

  function PackDesc(d: SectionDesc): (r: Result<bytes, Fault>)
    ensures r.Ok? ==> |r.value| == DESC_LENGTH
  {
    DescSize();
    if DescFits(d) then Ok(PackRecord(DescValues(d), DESC_LAYOUT)) else Err(OutOfRange)
  }

  function UnpackDesc(s: bytes): (r: Result<SectionDesc, Fault>)
    ensures r.Ok? ==> |s| == DESC_LENGTH
  {
    DescSize();
    if |s| != DESC_LENGTH then Err(BadLength)
    else
      var v := UnpackRecord(s, DESC_LAYOUT);
      if v[2] >= 8 || v[3] >= 2 || v[4] >= 3 then Err(BadEnum)
      else Ok(SectionDesc(v[0], v[1], v[2], v[3], v[4], v[5], v[6], v[7], v[8], v[9], v[10], v[11]))
  }

  lemma DescRoundTrip(d: SectionDesc)
    ensures PackDesc(d).Ok? <==> DescFits(d)
    ensures DescFits(d) ==> UnpackDesc(PackDesc(d).value) == Ok(d)
  {
    if DescFits(d) {
      DescSize();
      UnpackPackRecord(DescValues(d), DESC_LAYOUT);
    }
  }

  lemma DescReencode(s: bytes)
    requires UnpackDesc(s).Ok?
    ensures PackDesc(UnpackDesc(s).value) == Ok(s)
  {
    hide PackRecord, UnpackRecord, Size, Capacity;
    DescSize();
    PackUnpackRecord(s, DESC_LAYOUT);
    assert |UnpackRecord(s, DESC_LAYOUT)| == |DESC_LAYOUT| == 12;
    assert DescValues(UnpackDesc(s).value) == UnpackRecord(s, DESC_LAYOUT);
  }

  const MIXED_CODEC: nat := 1
  const FIXED_STRIDE: nat := 2

  predicate HasMixedCodec(d: SectionDesc) {
    d.flags % 2 == 1
  }

  predicate HasFixedStride(d: SectionDesc) {
    (d.flags / 2) % 2 == 1
  }

  /** One section as it lies in the body. */
  datatype View = View(desc: SectionDesc, codecTable: bytes, lengthTable: bytes, payload: bytes)

  /** The checks every section passes, whether it is being packed or parsed. */
  function CheckView(v: View): (r: Result<(), Fault>) {
    if |v.codecTable| != v.desc.codecTableBytes then Err(BadLength)
    else if |v.lengthTable| != v.desc.lengthTableBytes then Err(BadLength)
    else if |v.payload| != v.desc.payloadBytes then Err(BadLength)
    else if |v.lengthTable| % 4 != 0 then Err(BadLength)
    else if HasFixedStride(v.desc) && v.desc.payloadStride == 0 then Err(BadFlags)
    else if !HasFixedStride(v.desc) && v.desc.payloadStride != 0 then Err(BadFlags)
    else if HasMixedCodec(v.desc) && |v.codecTable| == 0 then Err(BadFlags)
    else if !HasMixedCodec(v.desc) && |v.codecTable| != 0 then Err(BadFlags)
    else if |v.codecTable| != 0 && |v.codecTable| != |v.lengthTable| / 4 then Err(BadCount)
    else Ok(())
  }

  function TileLengths(v: View): seq<nat>
    requires |v.lengthTable| % 4 == 0
  {
    DecodeAll(v.lengthTable, 4)
  }

  function Sum(values: seq<nat>): nat {
    if values == [] then 0 else values[0] + Sum(values[1..])
  }

  /** Payloads that follow each other with nothing between them. */
  function PackedSlices(payload: bytes, lengths: seq<nat>): (slices: seq<bytes>)
    requires |payload| == Sum(lengths)
    ensures |slices| == |lengths|
  {
    if lengths == [] then []
    else [payload[..lengths[0]]] + PackedSlices(payload[lengths[0]..], lengths[1..])
  }

  /** One slot of `stride` bytes for every length. */
  predicate Slotted(payload: bytes, lengths: seq<nat>, stride: nat) {
    |payload| == stride * |lengths|
  }

  lemma SlottedRest(payload: bytes, lengths: seq<nat>, stride: nat)
    requires Slotted(payload, lengths, stride) && lengths != []
    ensures stride <= |payload| && Slotted(payload[stride..], lengths[1..], stride)
  {
    SlotFits(stride, |lengths|);
  }

  /** Payloads in slots of `stride` bytes, the rest of each slot zero. */
  function StridedSlices(payload: bytes, lengths: seq<nat>, stride: nat): (r: Result<seq<bytes>, Fault>)
    requires Slotted(payload, lengths, stride)
    ensures r.Ok? ==> |r.value| == |lengths|
    decreases lengths
  {
    if lengths == [] then Ok([])
    else
      SlotFits(stride, |lengths|);
      if lengths[0] > stride then Err(BadLength)
      else if !AllZero(payload[lengths[0]..stride]) then Err(BadPadding)
      else
        var rest :- StridedSlices(payload[stride..], lengths[1..], stride);
        Ok([payload[..lengths[0]]] + rest)
  }

  lemma SlotFits(stride: nat, count: nat)
    requires count > 0
    ensures stride * count == stride * (count - 1) + stride
  {
  }

  function PayloadSlices(v: View): (r: Result<seq<bytes>, Fault>) {
    if |v.lengthTable| % 4 != 0 then Err(BadLength)
    else
      var lengths := TileLengths(v);
      if v.desc.payloadStride != 0 then
        if |v.payload| != v.desc.payloadStride * |lengths| then Err(BadLength)
        else StridedSlices(v.payload, lengths, v.desc.payloadStride)
      else if Sum(lengths) != |v.payload| then Err(BadLength)
      else Ok(PackedSlices(v.payload, lengths))
  }

  lemma {:induction false} PackedLengths(payload: bytes, lengths: seq<nat>)
    requires |payload| == Sum(lengths)
    ensures forall k :: 0 <= k < |lengths| ==> |PackedSlices(payload, lengths)[k]| == lengths[k]
  {
    if lengths != [] {
      PackedLengths(payload[lengths[0]..], lengths[1..]);
      var rest := PackedSlices(payload[lengths[0]..], lengths[1..]);
      forall k | 0 <= k < |lengths|
        ensures |PackedSlices(payload, lengths)[k]| == lengths[k]
      {
        assert k > 0 ==> PackedSlices(payload, lengths)[k] == rest[k - 1] && lengths[k] == lengths[1..][k - 1];
      }
    }
  }

  lemma {:induction false} StridedLengths(payload: bytes, lengths: seq<nat>, stride: nat)
    requires Slotted(payload, lengths, stride) && StridedSlices(payload, lengths, stride).Ok?
    ensures forall k :: 0 <= k < |lengths| ==> |StridedSlices(payload, lengths, stride).value[k]| == lengths[k]
    decreases lengths
  {
    hide AllZero;
    if lengths != [] {
      SlottedRest(payload, lengths, stride);
      StridedLengths(payload[stride..], lengths[1..], stride);
      var all, rest := StridedSlices(payload, lengths, stride).value,
                       StridedSlices(payload[stride..], lengths[1..], stride).value;
      forall k | 0 <= k < |lengths|
        ensures |all[k]| == lengths[k]
      {
        assert k > 0 ==> all[k] == rest[k - 1] && lengths[k] == lengths[1..][k - 1];
      }
    }
  }

  /** Cutting a section gives one payload per entry of its length table, of the length stated there. */
  lemma SliceLengths(v: View)
    requires PayloadSlices(v).Ok?
    ensures |v.lengthTable| % 4 == 0 && |PayloadSlices(v).value| == |TileLengths(v)|
    ensures forall k :: 0 <= k < |TileLengths(v)| ==> |PayloadSlices(v).value[k]| == TileLengths(v)[k]
  {
    hide TileLengths, Sum, StridedSlices, PackedSlices;
    if v.desc.payloadStride != 0 {
      StridedLengths(v.payload, TileLengths(v), v.desc.payloadStride);
    } else {
      PackedLengths(v.payload, TileLengths(v));
    }
  }

  function PackTensorSection(v: View): (r: Result<bytes, Fault>) {
    var _ :- CheckView(v);
    var _ :- PayloadSlices(v);
    var desc :- PackDesc(v.desc);
    Ok(desc + v.codecTable + v.lengthTable + v.payload)
  }

  /** A section at the front of `payload`, and how many bytes it takes. */
  function ParseSection(payload: bytes): (r: Result<(View, nat), Fault>)
    ensures r.Ok? ==> DESC_LENGTH <= r.value.1 <= |payload|
    ensures r.Ok? ==> |r.value.0.lengthTable| % 4 == 0
  {
    if |payload| < DESC_LENGTH then Err(BadLength)
    else
      var desc :- UnpackDesc(payload[..DESC_LENGTH]);
      var codecEnd := DESC_LENGTH + desc.codecTableBytes;
      var lengthEnd := codecEnd + desc.lengthTableBytes;
      var total := lengthEnd + desc.payloadBytes;
      if |payload| < total then Err(BadLength)
      else
        var v := View(desc, payload[DESC_LENGTH..codecEnd], payload[codecEnd..lengthEnd], payload[lengthEnd..total]);
        var _ :- CheckView(v);
        var _ :- PayloadSlices(v);
        Ok((v, total))
  }

  /** A parsed section packs to the bytes it was parsed from, and passes the packer's checks. */
  lemma SectionReencode(payload: bytes)
    requires ParseSection(payload).Ok?
    ensures PackTensorSection(ParseSection(payload).value.0) == Ok(payload[..ParseSection(payload).value.1])
  {
    hide CheckView, PayloadSlices, UnpackDesc, PackDesc;
    var (v, total) := ParseSection(payload).value;
    DescReencode(payload[..DESC_LENGTH]);
    assert payload[..total] == payload[..DESC_LENGTH] + v.codecTable + v.lengthTable + v.payload;
  }

  /** A packed section is parsed back whatever follows it. */
  lemma SectionParse(v: View, suffix: bytes)
    requires PackTensorSection(v).Ok?
    ensures ParseSection(PackTensorSection(v).value + suffix) == Ok((v, |PackTensorSection(v).value|))
  {
    hide PayloadSlices, UnpackDesc, PackDesc;
    DescRoundTrip(v.desc);
    var s := PackTensorSection(v).value;
    var all := s + suffix;
    var codecEnd := DESC_LENGTH + v.desc.codecTableBytes;
    var lengthEnd := codecEnd + v.desc.lengthTableBytes;
    assert all[..DESC_LENGTH] == PackDesc(v.desc).value;
    assert all[DESC_LENGTH..codecEnd] == v.codecTable;
    assert all[codecEnd..lengthEnd] == v.lengthTable;
    assert all[lengthEnd..|s|] == v.payload;
  }

  /** A section as the application states it. */
  datatype SectionData = SectionData(
    roleId: nat,
    defaultCodec: nat,
    dtypeId: DTypeCode,
    tilePayloads: seq<bytes>,
    codecIds: seq<int>,
    layoutId: LayoutCode,
    scalePolicy: ScaleCode,
    payloadStride: int,
    elementCount: nat)

  predicate AreBytes(ids: seq<int>) {
    forall i :: 0 <= i < |ids| ==> 0 <= ids[i] <= 0xFF
  }

  function CodecTable(d: SectionData): (r: Result<bytes, Fault>) {
    if d.codecIds == [] then Ok([])
    else if |d.codecIds| != |d.tilePayloads| then Err(BadCount)
    else if !AreBytes(d.codecIds) then Err(OutOfRange)
    else if forall i :: 0 <= i < |d.codecIds| ==> d.codecIds[i] == d.defaultCodec then Ok([])
    else Ok(d.codecIds)
  }

  function Lengths(payloads: seq<bytes>): (lengths: seq<nat>)
    ensures |lengths| == |payloads| && forall i :: 0 <= i < |payloads| ==> lengths[i] == |payloads[i]|
  {
    seq(|payloads|, i requires 0 <= i < |payloads| => |payloads[i]|)
  }

  function LengthTable(payloads: seq<bytes>): (r: Result<bytes, Fault>) {
    if AllFit(Lengths(payloads), 4) then Ok(EncodeAll(Lengths(payloads), 4)) else Err(OutOfRange)
  }

  /** Each payload in its own zero-filled slot. */
  function Slots(payloads: seq<bytes>, stride: nat): (r: Result<bytes, Fault>) {
    if payloads == [] then Ok([])
    else if |payloads[0]| > stride then Err(BadLength)
    else
      var rest :- Slots(payloads[1..], stride);
      Ok(payloads[0] + Zeros(stride - |payloads[0]|) + rest)
  }

  function PayloadBlob(payloads: seq<bytes>, stride: int): (r: Result<bytes, Fault>) {
    if stride < 0 then Err(OutOfRange)
    else if stride == 0 then Ok(Join(payloads))
    else Slots(payloads, stride)
  }

  /** The section's tables and payload, with the descriptor that states their sizes. */
  function ViewOf(d: SectionData): (r: Result<View, Fault>) {
    var codecTable :- CodecTable(d);
    var lengthTable :- LengthTable(d.tilePayloads);
    var blob :- PayloadBlob(d.tilePayloads, d.payloadStride);
    var flags := (if d.payloadStride > 0 then FIXED_STRIDE else 0) + (if codecTable != [] then MIXED_CODEC else 0);
    Ok(View(
      SectionDesc(d.roleId, d.defaultCodec, d.dtypeId, d.layoutId, d.scalePolicy, flags, d.elementCount,
                  |codecTable|, |lengthTable|, |blob|, d.payloadStride, 0),
      codecTable, lengthTable, blob))
  }

  function PackSectionData(d: SectionData): (r: Result<bytes, Fault>) {
    var v :- ViewOf(d);
    PackTensorSection(v)
  }

  predicate SlotsFit(payloads: seq<bytes>, stride: nat) {
    forall i :: 0 <= i < |payloads| ==> |payloads[i]| <= stride
  }

  lemma {:induction false} SlotsSlices(payloads: seq<bytes>, stride: nat)
    ensures Slots(payloads, stride).Ok? <==> SlotsFit(payloads, stride)
    ensures SlotsFit(payloads, stride) ==>
              && |Slots(payloads, stride).value| == stride * |payloads|
              && StridedSlices(Slots(payloads, stride).value, Lengths(payloads), stride) == Ok(payloads)
  {
    if payloads != [] {
      SlotsSlices(payloads[1..], stride);
      SlotFits(stride, |payloads|);
      assert Lengths(payloads)[1..] == Lengths(payloads[1..]);
      if SlotsFit(payloads, stride) {
        assert SlotsFit(payloads[1..], stride);
        var blob := Slots(payloads, stride).value;
        var n := |payloads[0]|;
        assert blob[..n] == payloads[0];
        assert blob[n..stride] == Zeros(stride - n);
        assert blob[stride..] == Slots(payloads[1..], stride).value;
        assert Lengths(payloads)[0] == n && AllZero(blob[n..stride]);
        assert payloads == [payloads[0]] + payloads[1..];
      }
    }
  }

  lemma {:induction false} JoinSlices(payloads: seq<bytes>)
    ensures |Join(payloads)| == Sum(Lengths(payloads))
    ensures PackedSlices(Join(payloads), Lengths(payloads)) == payloads
  {
    if payloads != [] {
      JoinSlices(payloads[1..]);
      assert Lengths(payloads)[1..] == Lengths(payloads[1..]);
      var blob := Join(payloads);
      assert blob[..|payloads[0]|] == payloads[0];
      assert blob[|payloads[0]|..] == Join(payloads[1..]);
    }
  }

  predicate CodecsLegal(d: SectionData) {
    d.codecIds == [] || (|d.codecIds| == |d.tilePayloads| && AreBytes(d.codecIds))
  }

  /** The payload bytes of a section: a slot per tile, or the payloads one after another. */
  function BlobSize(d: SectionData): nat {
    if d.payloadStride > 0 then d.payloadStride * |d.tilePayloads| else Sum(Lengths(d.tilePayloads))
  }

  /** One codec id per tile, unless all are the default. */
  function CodecTableSize(d: SectionData): nat {
    if forall i :: 0 <= i < |d.codecIds| ==> d.codecIds[i] == d.defaultCodec then 0 else |d.codecIds|
  }

  /** What a section must satisfy: codec ids per tile, payloads no longer than the stride, numbers in their range. */
  predicate LegalSection(d: SectionData) {
    && CodecsLegal(d)
    && 0 <= d.payloadStride < U32
    && (d.payloadStride > 0 ==> SlotsFit(d.tilePayloads, d.payloadStride))
    && d.roleId < U16 && d.defaultCodec < 0x100 && d.elementCount < U32
    && 4 * |d.tilePayloads| < U32 && BlobSize(d) < U32
  }

  /** The packed bytes of a section. */
  function SectionSize(d: SectionData): nat {
    DESC_LENGTH + CodecTableSize(d) + 4 * |d.tilePayloads| + BlobSize(d)
  }

  /** The codec of tile `k`, as stated by the application and as read from a parsed section. */
  function CodecOf(d: SectionData, k: nat): int
    requires CodecsLegal(d) && k < |d.tilePayloads|
  {
    if d.codecIds == [] then d.defaultCodec else d.codecIds[k]
  }

  function CodecIn(v: View, k: nat): nat
    requires v.codecTable != [] ==> k < |v.codecTable|
  {
    if v.codecTable == [] then v.desc.codecId else v.codecTable[k]
  }

  /** The tables and payload built for a section pass the checks every section passes. */
  lemma ViewConsistent(d: SectionData)
    requires ViewOf(d).Ok?
    ensures CheckView(ViewOf(d).value).Ok?
    ensures TileLengths(ViewOf(d).value) == Lengths(d.tilePayloads)
    ensures PayloadSlices(ViewOf(d).value) == Ok(d.tilePayloads)
  {
    hide Slots, StridedSlices, PackedSlices, Join, Sum;
    SlotsSlices(d.tilePayloads, d.payloadStride);
    JoinSlices(d.tilePayloads);
    DecodeEncodeAll(Lengths(d.tilePayloads), 4);
  }

  lemma ViewExists(d: SectionData)
    ensures ViewOf(d).Ok? <==>
            && CodecsLegal(d)
            && d.payloadStride >= 0
            && AllFit(Lengths(d.tilePayloads), 4)
            && (d.payloadStride > 0 ==> SlotsFit(d.tilePayloads, d.payloadStride))
  {
    if d.payloadStride >= 0 {
      SlotsSlices(d.tilePayloads, d.payloadStride);
    }
  }

  lemma {:induction false} SumBounds(values: seq<nat>)
    ensures forall i :: 0 <= i < |values| ==> values[i] <= Sum(values)
  {
    if values != [] {
      SumBounds(values[1..]);
      assert forall i :: 1 <= i < |values| ==> values[i] == values[1..][i - 1];
    }
  }

  /** No payload of a section is longer than all of them take. */
  lemma PayloadsWithinBlob(d: SectionData, i: nat)
    requires d.payloadStride > 0 ==> SlotsFit(d.tilePayloads, d.payloadStride)
    requires i < |d.tilePayloads|
    ensures |d.tilePayloads[i]| <= BlobSize(d)
  {
    var lengths := Lengths(d.tilePayloads);
    SumBounds(lengths);
    assert lengths[i] == |d.tilePayloads[i]|;
    if d.payloadStride > 0 {
      AtLeastOne(d.payloadStride, |d.tilePayloads|);
    }
  }

  lemma AtLeastOne(stride: nat, count: nat)
    requires count > 0
    ensures stride <= stride * count
  {
  }

  /** The sizes of what `ViewOf` builds. */
  lemma ViewSizes(d: SectionData)
    requires ViewOf(d).Ok?
    ensures var v := ViewOf(d).value;
            && |v.codecTable| == CodecTableSize(d) && |v.lengthTable| == 4 * |d.tilePayloads|
            && |v.payload| == BlobSize(d)
  {
    hide Slots, Join, Sum, EncodeAll;
    SlotsSlices(d.tilePayloads, d.payloadStride);
    JoinSlices(d.tilePayloads);
  }

  /** A legal section's payload lengths fit their table. */
  lemma LegalLengthsFit(d: SectionData)
    requires d.payloadStride > 0 ==> SlotsFit(d.tilePayloads, d.payloadStride)
    requires BlobSize(d) < U32
    ensures AllFit(Lengths(d.tilePayloads), 4)
  {
    hide BlobSize;
    Capacities();
    forall i | 0 <= i < |d.tilePayloads|
      ensures |d.tilePayloads[i]| < U32
    {
      PayloadsWithinBlob(d, i);
    }
  }

  lemma LegalSectionIff(d: SectionData)
    ensures LegalSection(d) <==> ViewOf(d).Ok? && DescFits(ViewOf(d).value.desc)
  {
    ViewExists(d);
    if d.payloadStride >= 0 && BlobSize(d) < U32
       && (d.payloadStride > 0 ==> SlotsFit(d.tilePayloads, d.payloadStride)) {
      LegalLengthsFit(d);
    }
    if ViewOf(d).Ok? {
      ViewSizes(d);
      DescOfView(d);
      DescFitsIff(ViewOf(d).value.desc);
    }
    hide ViewOf, DescFits, BlobSize, SlotsFit, CodecTableSize;
  }

  lemma DescOfView(d: SectionData)
    requires ViewOf(d).Ok?
    ensures var v := ViewOf(d).value;
            && v.desc.roleId == d.roleId && v.desc.codecId == d.defaultCodec && v.desc.flags <= 3
            && v.desc.dtypeId == d.dtypeId && v.desc.layoutId == d.layoutId && v.desc.scalePolicy == d.scalePolicy
            && v.desc.flags == (if d.payloadStride > 0 then 2 else 0) + (if v.codecTable != [] then 1 else 0)
            && (v.codecTable == [] <==> forall k :: 0 <= k < |d.codecIds| ==> d.codecIds[k] == d.defaultCodec)
            && v.desc.elementCount == d.elementCount && v.desc.payloadStride == d.payloadStride
            && v.desc.codecTableBytes == |v.codecTable| && v.desc.lengthTableBytes == |v.lengthTable|
            && v.desc.payloadBytes == |v.payload| && v.desc.reserved == 0
            && |v.codecTable| <= |d.tilePayloads|
  {
    hide Slots, Join, EncodeAll, AreBytes;
  }

  /** Packing accepts exactly the legal sections, and the packed bytes are as many as their sizes say. */
  lemma SectionAccepted(d: SectionData)
    ensures PackSectionData(d).Ok? <==> LegalSection(d)
    ensures LegalSection(d) ==> ViewOf(d).Ok?
    ensures LegalSection(d) ==> PayloadSlices(ViewOf(d).value) == Ok(d.tilePayloads)
    ensures LegalSection(d) ==> |TileLengths(ViewOf(d).value)| == |d.tilePayloads|
    ensures LegalSection(d) ==> |PackSectionData(d).value| == SectionSize(d)
  {
    hide DescFits, ViewOf, CheckView, PayloadSlices, LegalSection, TileLengths, BlobSize, CodecTableSize;
    LegalSectionIff(d);
    if ViewOf(d).Ok? {
      ViewConsistent(d);
      ViewSizes(d);
    }
  }

  /**
   Parsing a packed section gives back its role, its types, its element count and stride, its tile payloads and the
   codec of every tile.
   */
  lemma SectionRoundTrip(d: SectionData, suffix: bytes)
    requires LegalSection(d)
    ensures PackSectionData(d).Ok?
    ensures var s := PackSectionData(d).value;
            && ParseSection(s + suffix) == Ok((ViewOf(d).value, |s|))
            && PayloadSlices(ViewOf(d).value) == Ok(d.tilePayloads)
            && var desc := ViewOf(d).value.desc;
            && desc.roleId == d.roleId && desc.codecId == d.defaultCodec && desc.dtypeId == d.dtypeId
            && desc.layoutId == d.layoutId && desc.scalePolicy == d.scalePolicy
            && desc.elementCount == d.elementCount && desc.payloadStride == d.payloadStride
            && (forall k :: 0 <= k < |d.tilePayloads| ==>
                  (ViewOf(d).value.codecTable != [] ==> k < |ViewOf(d).value.codecTable|)
                  && CodecIn(ViewOf(d).value, k) == CodecOf(d, k))
  {
    hide PackTensorSection, ParseSection, DescFits, PayloadSlices;
    SectionAccepted(d);
    DescOfView(d);
    SectionParse(ViewOf(d).value, suffix);
  }

  lemma SlotsStep(payloads: seq<bytes>, stride: nat, i: nat)
    requires i < |payloads|
    ensures Slots(payloads[i..], stride) ==
            if |payloads[i]| > stride then Err(BadLength)
            else Prepend(payloads[i] + Zeros(stride - |payloads[i]|), Slots(payloads[i + 1..], stride))
  {
    assert payloads[i..][0] == payloads[i] && payloads[i..][1..] == payloads[i + 1..];
  }

  lemma NoSlots(stride: nat, done: bytes)
    ensures Prepend(done, Slots([], stride)) == Ok(done)
  {
    assert done + [] == done;
  }

  /** Lays payloads out in slots, or back to back when there is no stride. */
  method BuildPayloadBlob(payloads: seq<bytes>, stride: int) returns (r: Result<bytes, Fault>)
    ensures r == PayloadBlob(payloads, stride)
  {
    hide Slots, Join, Zeros;
    if stride < 0 {
      return Err(OutOfRange);
    }
    if stride == 0 {
      return Ok(Join(payloads));
    }
    var payload: bytes := [];
    var i := 0;
    assert payloads[0..] == payloads;
    PrependNone(Slots(payloads, stride));
    while i < |payloads|
      invariant 0 <= i <= |payloads|
      invariant Slots(payloads, stride) == Prepend(payload, Slots(payloads[i..], stride))
    {
      var item := payloads[i];
      SlotsStep(payloads, stride, i);
      if |item| > stride {
        return Err(BadLength);
      }
      var slot := item + Zeros(stride - |item|);
      PrependMore(payload, slot, Slots(payloads[i + 1..], stride));
      payload := payload + slot;
      i := i + 1;
    }
    assert payloads[i..] == [];
    NoSlots(stride, payload);
    return Ok(payload);
  }

  /** Cuts the payload of a section into its tiles. */
  method SlicePayload(v: View) returns (r: Result<seq<bytes>, Fault>)
    ensures r == PayloadSlices(v)
  {
    if |v.lengthTable| % 4 != 0 {
      return Err(BadLength);
    }
    var lengths := TileLengths(v);
    if v.desc.payloadStride != 0 {
      if |v.payload| != v.desc.payloadStride * |lengths| {
        return Err(BadLength);
      }
      r := SliceSlots(v.payload, lengths, v.desc.payloadStride);
      return;
    }
    if Sum(lengths) != |v.payload| {
      return Err(BadLength);
    }
    var slices := SliceBackToBack(v.payload, lengths);
    return Ok(slices);
  }

  lemma StridedStep(payload: bytes, start: nat, lengths: seq<nat>, i: nat, stride: nat)
    requires i < |lengths| && start + stride <= |payload|
    requires Slotted(payload[start..], lengths[i..], stride)
    ensures Slotted(payload[start + stride..], lengths[i + 1..], stride)
    ensures StridedSlices(payload[start..], lengths[i..], stride) ==
            if lengths[i] > stride then Err(BadLength)
            else if !AllZero(payload[start + lengths[i]..start + stride]) then Err(BadPadding)
            else Prepend([payload[start..start + lengths[i]]],
                         StridedSlices(payload[start + stride..], lengths[i + 1..], stride))
  {
    hide AllZero;
    var rest, left := payload[start..], lengths[i..];
    SlottedRest(rest, left, stride);
    assert left[0] == lengths[i] && left[1..] == lengths[i + 1..];
    assert rest[stride..] == payload[start + stride..];
    if lengths[i] <= stride {
      assert rest[lengths[i]..stride] == payload[start + lengths[i]..start + stride];
      assert rest[..lengths[i]] == payload[start..start + lengths[i]];
    }
  }

  method SliceSlots(payload: bytes, lengths: seq<nat>, stride: nat) returns (r: Result<seq<bytes>, Fault>)
    requires Slotted(payload, lengths, stride)
    ensures r == StridedSlices(payload, lengths, stride)
  {
    hide Slotted, AllZero, StridedSlices;
    var slices: seq<bytes> := [];
    var i, start := 0, 0;
    PrependNone(StridedSlices(payload, lengths, stride));
    assert lengths[0..] == lengths && payload[0..] == payload;
    while i < |lengths|
      invariant 0 <= i <= |lengths| && 0 <= start <= |payload|
      invariant Slotted(payload[start..], lengths[i..], stride)
      invariant StridedSlices(payload, lengths, stride)
                == Prepend(slices, StridedSlices(payload[start..], lengths[i..], stride))
    {
      SlottedRest(payload[start..], lengths[i..], stride);
      StridedStep(payload, start, lengths, i, stride);
      var length, end := lengths[i], start + stride;
      if length > stride {
        return Err(BadLength);
      }
      if !AllZero(payload[start + length..end]) {
        return Err(BadPadding);
      }
      PrependOne(slices, payload[start..start + length], StridedSlices(payload[end..], lengths[i + 1..], stride));
      slices := slices + [payload[start..start + length]];
      start := end;
      i := i + 1;
    }
    assert lengths[i..] == [];
    NoSlices(payload[start..], stride, slices);
    return Ok(slices);
  }

  lemma NoSlices(rest: bytes, stride: nat, done: seq<bytes>)
    requires Slotted(rest, [], stride)
    ensures Prepend(done, StridedSlices(rest, [], stride)) == Ok(done)
  {
    assert done + [] == done;
  }

  method SliceBackToBack(payload: bytes, lengths: seq<nat>) returns (slices: seq<bytes>)
    requires |payload| == Sum(lengths)
    ensures slices == PackedSlices(payload, lengths)
  {
    slices := [];
    var i, cursor := 0, 0;
    while i < |lengths|
      invariant 0 <= i <= |lengths| && 0 <= cursor <= |payload|
      invariant |payload[cursor..]| == Sum(lengths[i..])
      invariant slices + PackedSlices(payload[cursor..], lengths[i..]) == PackedSlices(payload, lengths)
    {
      ghost var rest := payload[cursor..];
      assert lengths[i..][1..] == lengths[i + 1..];
      assert rest[lengths[i]..] == payload[cursor + lengths[i]..];
      assert payload[cursor..cursor + lengths[i]] == rest[..lengths[i]];
      slices := slices + [payload[cursor..cursor + lengths[i]]];
      cursor := cursor + lengths[i];
      i := i + 1;
    }
    assert slices + [] == slices;
  }
}
