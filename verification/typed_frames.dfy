/** Typed payload frames and their descriptors (src/nnrp/core/packet.py:719-949, src/nnrp/schema.py:256-325). */
module TypedFrames {
  import opened Outcomes
  import opened Wire
  import opened Bits
  import opened PayloadSpans
  import opened RecordTables

  /** A payload kind is named by its bit number; bit 0 is TENSOR, bits 0 to 6 are declared. */
  const TENSOR: nat := 0
  const TENSOR_PROFILE: nat := 1

  /** What a descriptor says of its frame. */
  datatype Typed = Typed(
    kind: nat,
    profileId: nat,
    flags: nat,
    schemaId: nat,
    schemaVersion: nat,
    semantics: nat)

  type Frame = Carried<Typed>

  type Descriptor = Described<Typed>

  const DESCRIPTOR_LENGTH: nat := 24

  const DESCRIPTOR_LAYOUT: seq<nat> := [2, 1, 1] + [4, 4] + [2, 2] + [4, 4]

  lemma DescriptorSize()
    ensures Size(DESCRIPTOR_LAYOUT) == DESCRIPTOR_LENGTH
  {
    SizeConcat([2, 1, 1] + [4, 4] + [2, 2], [4, 4]);
    SizeConcat([2, 1, 1] + [4, 4], [2, 2]);
    SizeConcat([2, 1, 1], [4, 4]);
  }

  function DescriptorValues(d: Descriptor): seq<nat> {
    var a := d.about;
    [a.profileId, Pow2(a.kind), a.flags, a.schemaId, a.schemaVersion, a.semantics, 0, d.span.offset, d.span.length]
  }

  /** A descriptor whose flags are known and whose fields, its one kind bit included, fit the record. */
  predicate DescriptorFits(d: Descriptor) {
    d.about.flags <= 0xF && Fits(DescriptorValues(d), DESCRIPTOR_LAYOUT)
  }

  function PackDescriptor(d: Descriptor): (r: Result<bytes, Fault>)
    ensures r.Ok? ==> |r.value| == DESCRIPTOR_LENGTH
  {
    DescriptorSize();
    if DescriptorFits(d) then Ok(PackRecord(DescriptorValues(d), DESCRIPTOR_LAYOUT)) else Err(OutOfRange)
  }

  /** The bit number of a byte that has exactly one bit set. */
  function KindOfByte(b: nat): (r: Result<nat, Fault>)
    ensures r.Ok? ==> b == Pow2(r.value)
  {
    if b == 0 then Err(BadKind)
    else if b == 1 then Ok(0)
    else if b % 2 == 1 then Err(BadKind)
    else
      var k :- KindOfByte(b / 2);
      Ok(k + 1)
  }

  lemma {:induction false} KindOfPow2(kind: nat)
    ensures KindOfByte(Pow2(kind)) == Ok(kind)
  {
    if kind != 0 {
      KindOfPow2(kind - 1);
    }
  }

  function UnpackDescriptor(s: bytes): (r: Result<Descriptor, Fault>) {
    DescriptorSize();
    if |s| != DESCRIPTOR_LENGTH then Err(BadLength)
    else
      var v := UnpackRecord(s, DESCRIPTOR_LAYOUT);
      if v[6] != 0 then Err(BadReserved)
      else
        var kind :- KindOfByte(v[1]);
        if v[2] > 0xF then Err(BadFlags)
        else Ok(Described(Typed(kind, v[0], v[2], v[3], v[4], v[5]), Span(v[7], v[8])))
  }

  lemma DescriptorRoundTrip(d: Descriptor)
    ensures PackDescriptor(d).Ok? <==> DescriptorFits(d)
    ensures DescriptorFits(d) ==> UnpackDescriptor(PackDescriptor(d).value) == Ok(d)
  {
    if DescriptorFits(d) {
      hide Pow2;
      DescriptorSize();
      KindOfPow2(d.about.kind);
      UnpackPackRecord(DescriptorValues(d), DESCRIPTOR_LAYOUT);
    }
  }

  function PackDescriptors(ds: seq<Descriptor>): (r: Result<bytes, Fault>)
    ensures r.Ok? ==> |r.value| == DESCRIPTOR_LENGTH * |ds|
  {
    PackedAll(ds, DESCRIPTOR_LENGTH, PackDescriptor);
    PackAll(ds, PackDescriptor)
  }

  function UnpackDescriptors(s: bytes): (r: Result<seq<Descriptor>, Fault>)
    ensures r.Ok? ==> |s| == DESCRIPTOR_LENGTH * |r.value|
  {
    UnpackedAll(s, DESCRIPTOR_LENGTH, UnpackDescriptor);
    if |s| % DESCRIPTOR_LENGTH != 0 then Err(BadLength) else UnpackAll(s, DESCRIPTOR_LENGTH, UnpackDescriptor)
  }

  lemma DescriptorsRoundTrip(ds: seq<Descriptor>)
    ensures PackDescriptors(ds).Ok? <==> forall d :: d in ds ==> DescriptorFits(d)
    ensures PackDescriptors(ds).Ok? ==> UnpackDescriptors(PackDescriptors(ds).value) == Ok(ds)
  {
    hide DescriptorFits, PackDescriptor, UnpackDescriptor;
    forall d
      ensures PackDescriptor(d).Ok? <==> DescriptorFits(d)
      ensures DescriptorFits(d) ==> UnpackDescriptor(PackDescriptor(d).value) == Ok(d)
    {
      DescriptorRoundTrip(d);
    }
    AllRoundTrip(ds, DESCRIPTOR_LENGTH, PackDescriptor, UnpackDescriptor);
  }

  /** The kinds of some descriptors or frames: what their bitmap must say. */
  function Kinds(ds: seq<Descriptor>): set<nat> {
    set i | 0 <= i < |ds| :: ds[i].about.kind
  }

  function FrameKinds(frames: seq<Frame>): set<nat> {
    set i | 0 <= i < |frames| :: frames[i].about.kind
  }

  /** Packs frames; tensors are refused because they travel in tensor body blocks. */
  function PackTypedFrames(frames: seq<Frame>): (r: Result<(bytes, bytes), Fault>) {
    if exists f :: f in frames && f.about.kind == TENSOR then Err(BadKind)
    else
      var descriptors :- PackDescriptors(DescriptorsOf(frames, 0));
      Ok((descriptors, Join(Payloads(frames))))
  }

  function CutFrames(ds: seq<Descriptor>, region: bytes): (frames: seq<Frame>)
    requires forall i :: 0 <= i < |ds| ==> ds[i].span.End() <= |region|
  {
    seq(|ds|, i requires 0 <= i < |ds| => Carried(ds[i].about, Slice(region, ds[i].span)))
  }

  function UnpackTypedFrames(descriptorRegion: bytes, region: bytes, bitmap: set<nat>): (r: Result<seq<Frame>, Fault>) {
    var ds :- UnpackDescriptors(descriptorRegion);
    var _ :- ValidateOffsets(SpansOf(ds), |region|);
    if Kinds(ds) != bitmap - {TENSOR} then Err(BadKind)
    else
      ValidInBounds(ds, |region|);
      Ok(CutFrames(ds, region))
  }

  /** Kinds of descriptors are kinds of frames; no tensor among them when packing succeeds. */
  lemma FrameDescriptorKinds(frames: seq<Frame>)
    ensures Kinds(DescriptorsOf(frames, 0)) == FrameKinds(frames)
  {
    var ds := DescriptorsOf(frames, 0);
    assert forall i :: 0 <= i < |frames| ==> ds[i].about.kind == frames[i].about.kind;
  }

  /**
   Unpacking packed frames returns the frames, under the bitmap of their kinds
   with or without the tensor bit; the descriptor table is valid for the region.
   */
  lemma TypedFramesRoundTrip(frames: seq<Frame>, tensorToo: bool)
    requires PackTypedFrames(frames).Ok?
    ensures var (descriptors, region) := PackTypedFrames(frames).value;
            && UnpackTypedFrames(descriptors, region, FrameKinds(frames) + if tensorToo then {TENSOR} else {})
               == Ok(frames)
            && UnpackDescriptors(descriptors) == Ok(DescriptorsOf(frames, 0))
            && ValidateOffsets(SpansOf(DescriptorsOf(frames, 0)), |region|).Ok?
            && Kinds(DescriptorsOf(frames, 0)) == FrameKinds(frames)
            && TENSOR !in FrameKinds(frames)
  {
    hide PackDescriptors, UnpackDescriptors, DescriptorsOf, ValidateOffsets, CutFrames, FrameKinds, Kinds, Join,
      Payloads;
    var ds := DescriptorsOf(frames, 0);
    DescriptorsRoundTrip(ds);
    FrameDescriptorKinds(frames);
    CutPacked(frames);
    NoTensorKind(frames);
    var kinds := FrameKinds(frames);
    assert (kinds + if tensorToo then {TENSOR} else {}) - {TENSOR} == kinds;
  }

  lemma NoTensorKind(frames: seq<Frame>)
    requires PackTypedFrames(frames).Ok?
    ensures TENSOR !in FrameKinds(frames)
  {
    assert forall i :: 0 <= i < |frames| ==> frames[i] in frames;
  }

  /** The descriptors of frames cut the frames out of the joined payloads. */
  lemma CutPacked(frames: seq<Frame>)
    ensures var ds := DescriptorsOf(frames, 0);
            var region := Join(Payloads(frames));
            && ValidateOffsets(SpansOf(ds), |region|).Ok?
            && (forall i :: 0 <= i < |ds| ==> ds[i].span.End() <= |region|)
            && CutFrames(ds, region) == frames
  {
    hide DescriptorsOf, ValidateOffsets, Join;
    DescriptorsCut(frames);
  }

  /** Lays out descriptors and payloads frame by frame. */
  method PackTypedPayloadFrames(frames: seq<Frame>) returns (r: Result<(bytes, bytes), Fault>)
    ensures r == PackTypedFrames(frames)
  {
    hide PackDescriptors, DescriptorsOf, Join, Payloads;
    var descriptors: seq<Descriptor> := [];
    var region: bytes := [];
    var i := 0;
    LayOutEnds(frames, descriptors, region);
    while i < |frames|
      invariant 0 <= i <= |frames|
      invariant forall j :: 0 <= j < i ==> frames[j].about.kind != TENSOR
      invariant descriptors + DescriptorsOf(frames[i..], |region|) == DescriptorsOf(frames, 0)
      invariant region + Join(Payloads(frames[i..])) == Join(Payloads(frames))
    {
      var frame := frames[i];
      if frame.about.kind == TENSOR {
        assert frame in frames;
        return Err(BadKind);
      }
      LayOutOne(frames, i, descriptors, region);
      descriptors := descriptors + [Described(frame.about, Span(|region|, |frame.payload|))];
      region := region + frame.payload;
      i := i + 1;
    }
    LayOutEnds(frames, descriptors, region);
    var packed :- PackDescriptors(descriptors);
    return Ok((packed, region));
  }
}
