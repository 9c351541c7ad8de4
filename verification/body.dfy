/** The composed body: a prelude that locates six regions (src/nnrp/core/packet.py:1060-1143). */
module Bodies {
  import opened Outcomes
  import opened Wire
  import opened InlineObjects
  import PayloadSpans
  import TypedFrames
  import ExtensionFrames

  datatype Regions = Regions(
    inlineObjects: bytes,
    references: bytes,
    typedDescriptors: bytes,
    typedPayloads: bytes,
    extensionDescriptors: bytes,
    extensionPayloads: bytes)

  const PRELUDE_LENGTH: nat := 32

  const PRELUDE_LAYOUT: seq<nat> := [4, 4, 4, 4] + [4, 4, 4, 4]

  lemma PreludeSize()
    ensures Size(PRELUDE_LAYOUT) == PRELUDE_LENGTH
  {
    SizeConcat([4, 4, 4, 4], [4, 4, 4, 4]);
  }

  /** The six region lengths, then flags and a reserved field that are zero. */
  function PreludeValues(r: Regions): seq<nat> {
    [|r.inlineObjects|, |r.references|, |r.typedDescriptors|, |r.typedPayloads|, |r.extensionDescriptors|,
     |r.extensionPayloads|, 0, 0]
  }

  /** Regions of whole records whose lengths fit the prelude. */
  predicate RegionsFit(r: Regions) {
    && |r.references| % REFERENCE_LENGTH == 0
    && |r.typedDescriptors| % TypedFrames.DESCRIPTOR_LENGTH == 0
    && |r.extensionDescriptors| % ExtensionFrames.DESCRIPTOR_LENGTH == 0
    && Fits(PreludeValues(r), PRELUDE_LAYOUT)
  }

  function PackBody(r: Regions): (result: Result<bytes, Fault>) {
    PreludeSize();
    if !RegionsFit(r) then Err(OutOfRange)
    else
      Ok(PackRecord(PreludeValues(r), PRELUDE_LAYOUT) + r.inlineObjects + r.references + r.typedDescriptors
         + r.typedPayloads + r.extensionDescriptors + r.extensionPayloads)
  }

  /** What every region must hold, whatever the message. */
  function CheckRegions(r: Regions): (result: Result<(), Fault>) {
    var _ :- UnpackBlocks(r.inlineObjects);
    var _ :- UnpackReferences(r.references);
    var typed :- TypedFrames.UnpackDescriptors(r.typedDescriptors);
    var _ :- PayloadSpans.ValidateOffsets(PayloadSpans.SpansOf(typed), |r.typedPayloads|);
    var extensions :- ExtensionFrames.UnpackDescriptors(r.extensionDescriptors);
    PayloadSpans.ValidateOffsets(PayloadSpans.SpansOf(extensions), |r.extensionPayloads|)
  }

  function Cut(body: bytes, v: seq<nat>): Regions
    requires |v| == 8 && PRELUDE_LENGTH + v[0] + v[1] + v[2] + v[3] + v[4] + v[5] == |body|
  {
    var inlineEnd := PRELUDE_LENGTH + v[0];
    var referenceEnd := inlineEnd + v[1];
    var descriptorEnd := referenceEnd + v[2];
    var frameEnd := descriptorEnd + v[3];
    var extensionEnd := frameEnd + v[4];
    Regions(body[PRELUDE_LENGTH..inlineEnd], body[inlineEnd..referenceEnd], body[referenceEnd..descriptorEnd],
            body[descriptorEnd..frameEnd], body[frameEnd..extensionEnd], body[extensionEnd..])
  }

  function UnpackBody(body: bytes): (result: Result<Regions, Fault>) {
    PreludeSize();
    if |body| < PRELUDE_LENGTH then Err(BadLength)
    else
      var v := UnpackRecord(body[..PRELUDE_LENGTH], PRELUDE_LAYOUT);
      if v[6] != 0 || v[7] != 0 then Err(BadReserved)
      else if v[1] % REFERENCE_LENGTH != 0 || v[2] % TypedFrames.DESCRIPTOR_LENGTH != 0
              || v[4] % ExtensionFrames.DESCRIPTOR_LENGTH != 0 then Err(BadLength)
      else if PRELUDE_LENGTH + v[0] + v[1] + v[2] + v[3] + v[4] + v[5] != |body| then Err(BadLength)
      else
        var r := Cut(body, v);
        var _ :- CheckRegions(r);
        Ok(r)
  }

  /** Six parts after a prefix are found again at their ends. */
  lemma SixParts(prefix: bytes, a: bytes, b: bytes, c: bytes, d: bytes, e: bytes, f: bytes)
    ensures var all := prefix + a + b + c + d + e + f;
            var p0 := |prefix|; var p1 := p0 + |a|; var p2 := p1 + |b|; var p3 := p2 + |c|; var p4 := p3 + |d|;
            var p5 := p4 + |e|;
            && |all| == p5 + |f| && all[..p0] == prefix
            && all[p0..p1] == a && all[p1..p2] == b && all[p2..p3] == c && all[p3..p4] == d && all[p4..p5] == e
            && all[p5..] == f
  {
  }

  lemma CutPacked(r: Regions)
    requires RegionsFit(r)
    ensures PackBody(r).Ok? && |PackBody(r).value| >= PRELUDE_LENGTH
    ensures |PackBody(r).value[..PRELUDE_LENGTH]| == Size(PRELUDE_LAYOUT)
    ensures UnpackRecord(PackBody(r).value[..PRELUDE_LENGTH], PRELUDE_LAYOUT) == PreludeValues(r)
    ensures PRELUDE_LENGTH + |r.inlineObjects| + |r.references| + |r.typedDescriptors| + |r.typedPayloads|
            + |r.extensionDescriptors| + |r.extensionPayloads| == |PackBody(r).value|
    ensures Cut(PackBody(r).value, PreludeValues(r)) == r
  {
    hide PackRecord, UnpackRecord, Size;
    PreludeSize();
    UnpackPackRecord(PreludeValues(r), PRELUDE_LAYOUT);
    var prelude := PackRecord(PreludeValues(r), PRELUDE_LAYOUT);
    SixParts(prelude, r.inlineObjects, r.references, r.typedDescriptors, r.typedPayloads, r.extensionDescriptors,
             r.extensionPayloads);
  }

  /** A packed body is accepted exactly when its regions are sound, and is cut into the same regions. */
  lemma BodyRoundTrip(r: Regions)
    ensures PackBody(r).Ok? <==> RegionsFit(r)
    ensures RegionsFit(r) ==>
              UnpackBody(PackBody(r).value) == if CheckRegions(r).Ok? then Ok(r) else Err(CheckRegions(r).error)
  {
    hide CheckRegions, UnpackRecord, PackRecord, Size;
    PreludeSize();
    if RegionsFit(r) {
      CutPacked(r);
    }
  }

  /** An accepted body is the packing of the regions it was cut into. */
  lemma BodyReencode(body: bytes)
    requires UnpackBody(body).Ok?
    ensures PackBody(UnpackBody(body).value) == Ok(body)
  {
    hide CheckRegions, UnpackRecord, PackRecord;
    PreludeSize();
    var r := UnpackBody(body).value;
    var prelude := body[..PRELUDE_LENGTH];
    var v := UnpackRecord(prelude, PRELUDE_LAYOUT);
    PackUnpackRecord(prelude, PRELUDE_LAYOUT);
    assert PreludeValues(r) == v;
    assert body == prelude + r.inlineObjects + r.references + r.typedDescriptors + r.typedPayloads
                   + r.extensionDescriptors + r.extensionPayloads;
  }
}
