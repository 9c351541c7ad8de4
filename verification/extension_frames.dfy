/** Extension frames: unknown ones are skipped unless critical (src/nnrp/core/packet.py:952-1057). */
module ExtensionFrames {
  import opened Outcomes
  import opened Wire
  import opened PayloadSpans
  import opened RecordTables

  /** What a descriptor says of its frame. */
  datatype Extension = Extension(kind: nat, critical: bool, profileId: nat)

  type Frame = Carried<Extension>

  type Descriptor = Described<Extension>

  const DESCRIPTOR_LENGTH: nat := 16

  const DESCRIPTOR_LAYOUT: seq<nat> := [2, 2, 2, 2] + [4, 4]

  lemma DescriptorSize()
    ensures Size(DESCRIPTOR_LAYOUT) == DESCRIPTOR_LENGTH
  {
    SizeConcat([2, 2, 2, 2], [4, 4]);
  }

  function DescriptorValues(d: Descriptor): seq<nat> {
    [d.about.kind, if d.about.critical then 1 else 0, d.about.profileId, 0, d.span.offset, d.span.length]
  }

  predicate DescriptorFits(d: Descriptor) {
    Fits(DescriptorValues(d), DESCRIPTOR_LAYOUT)
  }

  function PackDescriptor(d: Descriptor): (r: Result<bytes, Fault>)
    ensures r.Ok? ==> |r.value| == DESCRIPTOR_LENGTH
  {
    DescriptorSize();
    if DescriptorFits(d) then Ok(PackRecord(DescriptorValues(d), DESCRIPTOR_LAYOUT)) else Err(OutOfRange)
  }

  function UnpackDescriptor(s: bytes): (r: Result<Descriptor, Fault>) {
    DescriptorSize();
    if |s| != DESCRIPTOR_LENGTH then Err(BadLength)
    else
      var v := UnpackRecord(s, DESCRIPTOR_LAYOUT);
      if v[1] > 1 then Err(BadFlags)
      else if v[3] != 0 then Err(BadReserved)
      else Ok(Described(Extension(v[0], v[1] == 1, v[2]), Span(v[4], v[5])))
  }

  lemma DescriptorRoundTrip(d: Descriptor)
    ensures PackDescriptor(d).Ok? <==> DescriptorFits(d)
    ensures DescriptorFits(d) ==> UnpackDescriptor(PackDescriptor(d).value) == Ok(d)
  {
    if DescriptorFits(d) {
      DescriptorSize();
      UnpackPackRecord(DescriptorValues(d), DESCRIPTOR_LAYOUT);
    }
  }

  function PackDescriptors(ds: seq<Descriptor>): (r: Result<bytes, Fault>)
    ensures r.Ok? ==> |r.value| == DESCRIPTOR_LENGTH * |ds|
  {
    PackedAll(ds, DESCRIPTOR_LENGTH, PackDescriptor);
    PackAll(ds, PackDescriptor)
  }

  function UnpackDescriptors(s: bytes): (r: Result<seq<Descriptor>, Fault>) {
    if |s| % DESCRIPTOR_LENGTH != 0 then Err(BadLength) else UnpackAll(s, DESCRIPTOR_LENGTH, UnpackDescriptor)
  }

  lemma DescriptorsRoundTrip(ds: seq<Descriptor>)
    ensures PackDescriptors(ds).Ok? <==> forall d :: d in ds ==> DescriptorFits(d)
    ensures PackDescriptors(ds).Ok? ==> UnpackDescriptors(PackDescriptors(ds).value) == Ok(ds)
  {
    hide DescriptorFits, PackDescriptor, UnpackDescriptor;
    forall d
      ensures PackDescriptor(d).Ok? <==> DescriptorFits(d)
      ensures DescriptorFits(d) ==> UnpackDescriptor(PackDescriptor(d).value) == Ok(d)
    {
      DescriptorRoundTrip(d);
    }
    AllRoundTrip(ds, DESCRIPTOR_LENGTH, PackDescriptor, UnpackDescriptor);
  }

  function PackExtensionFrames(frames: seq<Frame>): (r: Result<(bytes, bytes), Fault>) {
    var descriptors :- PackDescriptors(DescriptorsOf(frames, 0));
    Ok((descriptors, Join(Payloads(frames))))
  }

  /** Which kinds the reader knows; None means it takes every kind. */
  type Known = Option<set<nat>>

  predicate Knows(known: Known, kind: nat) {
    known.Some? ==> kind in known.value
  }

  /** The frames of the table, unknown ones skipped; refused at the first unknown critical one. */
  function CutFrames(ds: seq<Descriptor>, region: bytes, known: Known): (r: Result<seq<Frame>, Fault>)
    requires forall i :: 0 <= i < |ds| ==> ds[i].span.End() <= |region|
  {
    if ds == [] then Ok([])
    else if !Knows(known, ds[0].about.kind) then
      if ds[0].about.critical then Err(BadKind) else CutFrames(ds[1..], region, known)
    else
      var rest :- CutFrames(ds[1..], region, known);
      Ok([Carried(ds[0].about, Slice(region, ds[0].span))] + rest)
  }

  function UnpackExtensionFrames(descriptorRegion: bytes, region: bytes, known: Known): (r: Result<seq<Frame>, Fault>) {
    var ds :- UnpackDescriptors(descriptorRegion);
    var _ :- ValidateOffsets(SpansOf(ds), |region|);
    ValidInBounds(ds, |region|);
    CutFrames(ds, region, known)
  }

  predicate HasUnknownCritical(frames: seq<Frame>, known: Known) {
    exists f :: f in frames && f.about.critical && !Knows(known, f.about.kind)
  }

  /** The known frames in order. */
  function KnownFrames(frames: seq<Frame>, known: Known): seq<Frame> {
    if frames == [] then []
    else (if Knows(known, frames[0].about.kind) then [frames[0]] else []) + KnownFrames(frames[1..], known)
  }

  lemma {:induction false} CutFramesOf(frames: seq<Frame>, ds: seq<Descriptor>, region: bytes, known: Known)
    requires |ds| == |frames|
    requires forall i :: 0 <= i < |ds| ==> ds[i].span.End() <= |region|
    requires forall i :: 0 <= i < |ds| ==>
               ds[i].about == frames[i].about && Slice(region, ds[i].span) == frames[i].payload
    ensures CutFrames(ds, region, known) ==
            if HasUnknownCritical(frames, known) then Err(BadKind) else Ok(KnownFrames(frames, known))
  {
    hide Knows;
    if frames != [] {
      CutFramesOf(frames[1..], ds[1..], region, known);
      assert frames == [frames[0]] + frames[1..];
      assert frames[0] in frames;
      assert HasUnknownCritical(frames, known) <==>
             || (frames[0].about.critical && !Knows(known, frames[0].about.kind))
             || HasUnknownCritical(frames[1..], known);
      assert [] + KnownFrames(frames[1..], known) == KnownFrames(frames[1..], known);
      assert Carried(ds[0].about, Slice(region, ds[0].span)) == frames[0];
    }
  }

  /**
   Unpacking packed extension frames gives the known ones in order, and fails
   exactly when one of the frames is critical and unknown.
   */
  lemma ExtensionFramesRoundTrip(frames: seq<Frame>, known: Known)
    requires PackExtensionFrames(frames).Ok?
    ensures var (descriptors, region) := PackExtensionFrames(frames).value;
            UnpackExtensionFrames(descriptors, region, known) ==
            if HasUnknownCritical(frames, known) then Err(BadKind) else Ok(KnownFrames(frames, known))
  {
    hide PackDescriptors, UnpackDescriptors, DescriptorsOf, ValidateOffsets, CutFrames, Knows, HasUnknownCritical;
    var ds := DescriptorsOf(frames, 0);
    var region := Join(Payloads(frames));
    DescriptorsRoundTrip(ds);
    DescriptorsCut(frames);
    CutFramesOf(frames, ds, region, known);
  }

  /** A reader that names no kinds takes every frame; one that does takes the frames of those kinds, in order. */
  lemma KnownFramesNext(frames: seq<Frame>, f: Frame, known: Known)
    ensures KnownFrames(frames + [f], known) ==
            KnownFrames(frames, known) +
            if known == None || (known.Some? && f.about.kind in known.value) then [f] else []
    ensures KnownFrames([], known) == []
    decreases |frames|
  {
    hide Knows;
    KindKnown(known, f.about.kind);
    if frames == [] {
      assert (frames + [f])[1..] == [];
    } else {
      KnownFramesNext(frames[1..], f, known);
      var all := frames + [f];
      assert all[1..] == frames[1..] + [f] && all[0] == frames[0];
      var head := if Knows(known, all[0].about.kind) then [all[0]] else [];
      assert KnownFrames(all, known) == head + KnownFrames(frames[1..] + [f], known);
      assert KnownFrames(frames, known) == head + KnownFrames(frames[1..], known);
    }
  }

  lemma KindKnown(known: Known, kind: nat)
    ensures Knows(known, kind) <==> known == None || (known.Some? && kind in known.value)
  {
  }

  /** The reader fails exactly on a critical frame of a kind it does not know. */
  lemma UnknownCriticalIff(frames: seq<Frame>, known: Known)
    requires PackExtensionFrames(frames).Ok?
    ensures var (descriptors, region) := PackExtensionFrames(frames).value;
            UnpackExtensionFrames(descriptors, region, known).Err? <==>
            known.Some? && exists f :: f in frames && f.about.critical && f.about.kind !in known.value
  {
    hide PackExtensionFrames, UnpackExtensionFrames;
    ExtensionFramesRoundTrip(frames, known);
  }

  /** The loop that cuts the frames. */
  method UnpackFrames(descriptorRegion: bytes, region: bytes, known: Known) returns (r: Result<seq<Frame>, Fault>)
    ensures r == UnpackExtensionFrames(descriptorRegion, region, known)
  {
    hide UnpackDescriptors, ValidateOffsets, Knows;
    var ds :- UnpackDescriptors(descriptorRegion);
    var _ :- ValidateOffsets(SpansOf(ds), |region|);
    ValidInBounds(ds, |region|);
    var frames: seq<Frame> := [];
    var i := 0;
    assert ds[0..] == ds;
    PrependNone(CutFrames(ds, region, known));
    while i < |ds|
      invariant 0 <= i <= |ds|
      invariant CutFrames(ds, region, known) == Prepend(frames, CutFrames(ds[i..], region, known))
    {
      var d := ds[i];
      assert ds[i..][1..] == ds[i + 1..];
      if !Knows(known, d.about.kind) {
        if d.about.critical {
          return Err(BadKind);
        }
      } else {
        var frame := Carried(d.about, Slice(region, d.span));
        PrependOne(frames, frame, CutFrames(ds[i + 1..], region, known));
        frames := frames + [frame];
      }
      i := i + 1;
    }
    assert frames + [] == frames;
    return Ok(frames);
  }
}
