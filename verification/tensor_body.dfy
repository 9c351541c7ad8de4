/** A run of tensor sections on 8-byte boundaries (src/nnrp/core/packet.py:2498-2664). */
module TensorBody {
  import opened Outcomes
  import opened Wire
  import opened Alignment
  import opened TensorSections

  /** What is appended to a buffer of `offset` bytes: each section after padding to the next boundary. */
  function RegionFrom(offset: nat, sections: seq<bytes>): bytes
    decreases sections
  {
    if sections == [] then []
    else Padding(offset) + sections[0] + RegionFrom(AlignUp(offset) + |sections[0]|, sections[1..])
  }

  function PackRegion(sections: seq<bytes>): bytes {
    RegionFrom(0, sections)
  }

  lemma RegionCons(offset: nat, first: bytes, rest: seq<bytes>)
    ensures RegionFrom(offset, [first] + rest) ==
            Padding(offset) + first + RegionFrom(AlignUp(offset) + |first|, rest)
  {
    assert ([first] + rest)[1..] == rest;
  }

  /** The padding before the first of some sections may be seen as part of what precedes them. */
  lemma RegionShift(offset: nat, sections: seq<bytes>)
    requires sections != []
    ensures RegionFrom(offset, sections) == Padding(offset) + RegionFrom(AlignUp(offset), sections)
  {
    hide AlignUp;
    var first, rest := sections[0], sections[1..];
    assert sections == [first] + rest;
    AlignedAlready(AlignUp(offset));
    RegionCons(offset, first, rest);
    RegionCons(AlignUp(offset), first, rest);
    assert [] + first == first;
  }

  method PackSectionRegion(sections: seq<bytes>) returns (payload: bytes)
    ensures payload == PackRegion(sections)
  {
    hide AlignUp, RegionFrom, Padding;
    payload := [];
    var i := 0;
    ghost var region := PackRegion(sections);
    assert sections[0..] == sections && [] + region == region;
    while i < |sections|
      invariant 0 <= i <= |sections|
      invariant payload + RegionFrom(|payload|, sections[i..]) == region
    {
      assert sections[i..] == [sections[i]] + sections[i + 1..];
      RegionCons(|payload|, sections[i], sections[i + 1..]);
      ghost var rest := RegionFrom(AlignUp(|payload|) + |sections[i]|, sections[i + 1..]);
      ghost var before := payload;
      payload := payload + Padding(|payload|) + sections[i];
      assert before + (Padding(|before|) + sections[i] + rest) == payload + rest;
      i := i + 1;
    }
    RegionNone(|payload|);
    assert sections[i..] == [] && payload + [] == payload;
  }

  lemma RegionNone(offset: nat)
    ensures RegionFrom(offset, []) == []
  {
  }

  /** Packs sections in strictly increasing role order, each with one payload per tile. */
  function PackSections(sections: seq<SectionData>, tileCount: nat, previous: Option<nat>)
    : (r: Result<seq<bytes>, Fault>)
    ensures r.Ok? ==> |r.value| == |sections|
  {
    if sections == [] then Ok([])
    else if previous.Some? && sections[0].roleId <= previous.value then Err(BadOrder)
    else if |sections[0].tilePayloads| != tileCount then Err(BadCount)
    else
      var packed :- PackSectionData(sections[0]);
      var rest :- PackSections(sections[1..], tileCount, Some(sections[0].roleId));
      Ok([packed] + rest)
  }

  /** Sections a submit or a result may carry. */
  predicate LegalSections(sections: seq<SectionData>, tileCount: nat) {
    && (forall i, j :: 0 <= i < j < |sections| ==> sections[i].roleId < sections[j].roleId)
    && (forall i :: 0 <= i < |sections| ==> LegalSection(sections[i]) && |sections[i].tilePayloads| == tileCount)
  }

  lemma {:induction false} PackSectionsAccepts(sections: seq<SectionData>, tileCount: nat, previous: Option<nat>)
    ensures PackSections(sections, tileCount, previous).Ok? <==>
            LegalSections(sections, tileCount) &&
            (previous.Some? && sections != [] ==> previous.value < sections[0].roleId)
  {
    hide PackSectionData, LegalSection;
    if sections != [] {
      SectionAccepted(sections[0]);
      PackSectionsAccepts(sections[1..], tileCount, Some(sections[0].roleId));
      if LegalSections(sections, tileCount) {
        assert LegalSections(sections[1..], tileCount);
      }
    }
  }

  /** The bytes that sections add to a buffer of `offset` bytes. */
  function RegionSize(offset: nat, sections: seq<SectionData>): nat
    decreases sections
  {
    if sections == [] then 0
    else
      var end := AlignUp(offset) + SectionSize(sections[0]);
      end - offset + RegionSize(end, sections[1..])
  }

  lemma {:induction false} RegionBytes(
    sections: seq<SectionData>, tileCount: nat, previous: Option<nat>, offset: nat)
    requires PackSections(sections, tileCount, previous).Ok?
    ensures |RegionFrom(offset, PackSections(sections, tileCount, previous).value)| == RegionSize(offset, sections)
    decreases sections
  {
    hide AlignUp, PackSectionData, SectionSize, LegalSection;
    if sections != [] {
      SectionAccepted(sections[0]);
      var packed := PackSections(sections, tileCount, previous).value;
      var end := AlignUp(offset) + SectionSize(sections[0]);
      RegionBytes(sections[1..], tileCount, Some(sections[0].roleId), end);
      assert packed[1..] == PackSections(sections[1..], tileCount, Some(sections[0].roleId)).value;
    }
  }

  datatype BodyView = BodyView(tileIndex: bytes, sections: seq<View>)

  /** Reads the section at the cursor, against the role before it; yields it and its end. */
  function SectionAt(view: bytes, cursor: nat, previous: Option<nat>, tileCount: Option<nat>)
    : (r: Result<(View, nat), Fault>)
    requires cursor <= |view|
    ensures r.Ok? ==> cursor <= r.value.1 <= |view|
  {
    var parsed :- ParseSection(view[cursor..]);
    var (section, consumed) := parsed;
    if previous.Some? && section.desc.roleId <= previous.value then Err(BadOrder)
    else if tileCount.Some? && |TileLengths(section)| != tileCount.value then Err(BadCount)
    else Ok((section, cursor + consumed))
  }

  /** The boundary after a section, when only zeros lie before it. */
  function NextBoundary(view: bytes, end: nat): (r: Result<nat, Fault>)
    requires end <= |view|
    ensures r.Ok? ==> end <= r.value <= |view| && r.value == AlignUp(end) && AllZero(view[end..r.value])
  {
    if AlignUp(end) > |view| then Err(BadLength)
    else if !AllZero(view[end..AlignUp(end)]) then Err(BadPadding)
    else Ok(AlignUp(end))
  }

  /** Reads `count` sections from an aligned cursor; yields them and the end of the last one. */
  function UnpackSections(
    view: bytes, cursor: nat, count: nat, previous: Option<nat>, tileCount: Option<nat>)
    : (r: Result<(seq<View>, nat), Fault>)
    requires cursor <= |view|
    ensures r.Ok? ==> |r.value.0| == count && cursor <= r.value.1 <= |view|
    decreases count
  {
    if count == 0 then Ok(([], cursor))
    else
      var first :- SectionAt(view, cursor, previous, tileCount);
      if count == 1 then Ok(([first.0], first.1))
      else
        var start :- NextBoundary(view, first.1);
        var rest :- UnpackSections(view, start, count - 1, Some(first.0.desc.roleId), tileCount);
        Ok(([first.0] + rest.0, rest.1))
  }

  /**
   What a reader may rely on in the sections of a body of `tileCount` tiles: roles increase, each section passes the
   checks of its flags and tables, and it holds one payload per tile, of the length its table states.
   */
  ghost predicate SoundSections(sections: seq<View>, tileCount: nat) {
    && (forall i, j :: 0 <= i < j < |sections| ==> sections[i].desc.roleId < sections[j].desc.roleId)
    && forall i :: 0 <= i < |sections| ==> SoundSection(sections[i], tileCount)
  }

  ghost predicate SoundSection(v: View, tileCount: nat) {
    && CheckView(v).Ok? && PayloadSlices(v).Ok?
    && |v.lengthTable| % 4 == 0 && |TileLengths(v)| == |PayloadSlices(v).value| == tileCount
    && forall k :: 0 <= k < tileCount ==> |PayloadSlices(v).value[k]| == TileLengths(v)[k]
  }

  lemma SectionAtSound(view: bytes, cursor: nat, previous: Option<nat>, tileCount: nat)
    requires cursor <= |view| && SectionAt(view, cursor, previous, Some(tileCount)).Ok?
    ensures var v := SectionAt(view, cursor, previous, Some(tileCount)).value.0;
            SoundSection(v, tileCount) && (previous.Some? ==> previous.value < v.desc.roleId)
  {
    hide CheckView, PayloadSlices, UnpackDesc, TileLengths;
    SliceLengths(SectionAt(view, cursor, previous, Some(tileCount)).value.0);
  }

  /** Whatever bytes they were parsed from, parsed sections are sound. */
  lemma {:induction false} ParsedSections(
    view: bytes, cursor: nat, count: nat, previous: Option<nat>, tileCount: nat)
    requires cursor <= |view| && UnpackSections(view, cursor, count, previous, Some(tileCount)).Ok?
    ensures var sections := UnpackSections(view, cursor, count, previous, Some(tileCount)).value.0;
            && SoundSections(sections, tileCount)
            && (previous.Some? && sections != [] ==> previous.value < sections[0].desc.roleId)
    decreases count
  {
    hide SectionAt, NextBoundary, SoundSection;
    if count != 0 {
      var (first, next) := SectionAt(view, cursor, previous, Some(tileCount)).value;
      SectionAtSound(view, cursor, previous, tileCount);
      if count > 1 {
        var start := NextBoundary(view, next).value;
        ParsedSections(view, start, count - 1, Some(first.desc.roleId), tileCount);
        var rest := UnpackSections(view, start, count - 1, Some(first.desc.roleId), Some(tileCount)).value.0;
        SoundCons(first, rest, tileCount);
      }
    }
  }

  lemma SoundCons(first: View, rest: seq<View>, tileCount: nat)
    requires SoundSection(first, tileCount) && SoundSections(rest, tileCount)
    requires rest != [] ==> first.desc.roleId < rest[0].desc.roleId
    ensures SoundSections([first] + rest, tileCount)
  {
    hide SoundSection;
    var all := [first] + rest;
    forall i, j | 0 <= i < j < |all|
      ensures all[i].desc.roleId < all[j].desc.roleId
    {
      assert all[j] == rest[j - 1];
      if i > 0 {
        assert all[i] == rest[i - 1];
      } else if j > 1 {
        assert rest[0].desc.roleId < rest[j - 1].desc.roleId;
      }
    }
  }

  function UnpackTensorBody(view: bytes, tileIndexBytes: nat, sectionCount: nat, tileCount: Option<nat>)
    : (r: Result<BodyView, Fault>)
    ensures r.Ok? ==> |r.value.sections| == sectionCount
  {
    if |view| < tileIndexBytes then Err(BadLength)
    else
      var start := if sectionCount > 0 then AlignUp(tileIndexBytes) else tileIndexBytes;
      if start > |view| then Err(BadLength)
      else if !AllZero(view[tileIndexBytes..start]) then Err(BadPadding)
      else
        var sections :- UnpackSections(view, start, sectionCount, None, tileCount);
        if sections.1 != |view| then Err(BadLength)
        else Ok(BodyView(view[..tileIndexBytes], sections.0))
  }

  lemma ParsedBody(view: bytes, sectionCount: nat, tileCount: nat)
    requires UnpackTensorBody(view, 0, sectionCount, Some(tileCount)).Ok?
    ensures SoundSections(UnpackTensorBody(view, 0, sectionCount, Some(tileCount)).value.sections, tileCount)
  {
    hide UnpackSections, SoundSections;
    ParsedSections(view, 0, sectionCount, None, tileCount);
  }

  /** The views of legal sections. */
  function ViewsOf(sections: seq<SectionData>): (views: seq<View>)
    requires forall i :: 0 <= i < |sections| ==> ViewOf(sections[i]).Ok?
    ensures |views| == |sections|
  {
    if sections == [] then [] else [ViewOf(sections[0]).value] + ViewsOf(sections[1..])
  }

  lemma {:induction false} ViewsExist(sections: seq<SectionData>, tileCount: nat, previous: Option<nat>)
    requires PackSections(sections, tileCount, previous).Ok?
    ensures forall i :: 0 <= i < |sections| ==> ViewOf(sections[i]).Ok?
  {
    hide LegalSection, PackSectionData, ViewOf;
    if sections != [] {
      SectionAccepted(sections[0]);
      ViewsExist(sections[1..], tileCount, Some(sections[0].roleId));
      assert forall i :: 1 <= i < |sections| ==> sections[i] == sections[1..][i - 1];
    }
  }

  /** After an aligned prefix the first section starts at once; the rest starts at the next boundary. */
  lemma FirstOfRegion(prefix: bytes, s: bytes, rest: seq<bytes>)
    requires |prefix| % 8 == 0
    ensures var body, next := prefix + RegionFrom(|prefix|, [s] + rest), |prefix| + |s|;
            && body[|prefix|..] == s + RegionFrom(next, rest)
            && (rest == [] ==> body == prefix + s)
            && (rest != [] ==>
                  && next <= AlignUp(next) <= |body|
                  && body[next..AlignUp(next)] == Padding(next)
                  && |prefix + s + Padding(next)| == AlignUp(next)
                  && body == prefix + s + Padding(next) + RegionFrom(AlignUp(next), rest))
  {
    hide RegionFrom, AlignUp, Padding;
    var next := |prefix| + |s|;
    AlignedAlready(|prefix|);
    RegionCons(|prefix|, s, rest);
    assert [] + s == s;
    if rest == [] {
      RegionNone(next);
      assert s + [] == s;
    } else {
      RegionShift(next, rest);
    }
  }

  /** Reading a packed section from a body where it lies. */
  lemma PackedSectionAt(
    body: bytes, cursor: nat, d: SectionData, after: bytes, previous: Option<nat>, tileCount: nat)
    requires LegalSection(d) && |d.tilePayloads| == tileCount && PackSectionData(d).Ok? && ViewOf(d).Ok?
    requires cursor <= |body| && body[cursor..] == PackSectionData(d).value + after
    requires previous.Some? ==> previous.value < d.roleId
    ensures SectionAt(body, cursor, previous, Some(tileCount))
            == Ok((ViewOf(d).value, cursor + |PackSectionData(d).value|))
    ensures ViewOf(d).value.desc.roleId == d.roleId
  {
    hide LegalSection, PackSectionData, ParseSection, PayloadSlices, ViewOf, TileLengths, CodecIn, CodecOf;
    SectionAccepted(d);
    SectionRoundTrip(d, after);
  }

  lemma {:induction false} UnpackPackedSections(
    prefix: bytes, sections: seq<SectionData>, tileCount: nat, previous: Option<nat>)
    requires |prefix| % 8 == 0
    requires PackSections(sections, tileCount, previous).Ok?
    ensures forall i :: 0 <= i < |sections| ==> ViewOf(sections[i]).Ok?
    ensures var body := prefix + RegionFrom(|prefix|, PackSections(sections, tileCount, previous).value);
            UnpackSections(body, |prefix|, |sections|, previous, Some(tileCount)) == Ok((ViewsOf(sections), |body|))
    decreases sections
  {
    hide LegalSection, PackSectionData, ViewOf, SectionAt, NextBoundary;
    hide RegionFrom, AlignUp, Padding;
    ViewsExist(sections, tileCount, previous);
    if sections == [] {
      RegionNone(|prefix|);
      assert prefix + [] == prefix;
    } else {
      var s := PackSectionData(sections[0]).value;
      var rest := PackSections(sections[1..], tileCount, Some(sections[0].roleId)).value;
      var next := |prefix| + |s|;
      var body := prefix + RegionFrom(|prefix|, [s] + rest);
      FirstOfRegion(prefix, s, rest);
      SectionAccepted(sections[0]);
      PackedSectionAt(body, |prefix|, sections[0], RegionFrom(next, rest), previous, tileCount);
      if |sections| > 1 {
        PaddingBoundary(body, next);
        UnpackPackedSections(prefix + s + Padding(next), sections[1..], tileCount, Some(sections[0].roleId));
      } else {
        assert ViewsOf(sections) == [ViewOf(sections[0]).value];
      }
    }
  }

  lemma PaddingBoundary(body: bytes, end: nat)
    requires end <= AlignUp(end) <= |body| && body[end..AlignUp(end)] == Padding(end)
    ensures NextBoundary(body, end) == Ok(AlignUp(end))
  {
    hide AlignUp;
  }

  /**
   Packing legal sections and unpacking the region gives back, for every
   section, its role and the payload of every tile.
   */
  lemma RegionRoundTrip(sections: seq<SectionData>, tileCount: nat)
    requires LegalSections(sections, tileCount)
    ensures PackSections(sections, tileCount, None).Ok?
    ensures var region := PackRegion(PackSections(sections, tileCount, None).value);
            && UnpackTensorBody(region, 0, |sections|, Some(tileCount)).Ok?
            && var views := UnpackTensorBody(region, 0, |sections|, Some(tileCount)).value.sections;
            forall i :: 0 <= i < |sections| ==>
              views[i].desc.roleId == sections[i].roleId && PayloadSlices(views[i]) == Ok(sections[i].tilePayloads)
  {
    hide LegalSection, PayloadSlices, ViewOf, PackSectionData, RegionFrom;
    PackSectionsAccepts(sections, tileCount, None);
    UnpackPackedSections([], sections, tileCount, None);
    var region := PackRegion(PackSections(sections, tileCount, None).value);
    assert [] + region == region;
    ViewsIndex(sections);
    forall i | 0 <= i < |sections|
      ensures ViewsOf(sections)[i].desc.roleId == sections[i].roleId
      ensures PayloadSlices(ViewsOf(sections)[i]) == Ok(sections[i].tilePayloads)
    {
      SectionRoundTrip(sections[i], []);
    }
  }

  lemma {:induction false} ViewsIndex(sections: seq<SectionData>)
    requires forall i :: 0 <= i < |sections| ==> ViewOf(sections[i]).Ok?
    ensures forall i :: 0 <= i < |sections| ==> ViewsOf(sections)[i] == ViewOf(sections[i]).value
  {
    hide ViewOf;
    if sections != [] {
      ViewsIndex(sections[1..]);
    }
  }

  /** The bytes of parsed sections, packed one by one. */
  function Repacked(views: seq<View>): (r: Result<seq<bytes>, Fault>) {
    if views == [] then Ok([])
    else
      var first :- PackTensorSection(views[0]);
      var rest :- Repacked(views[1..]);
      Ok([first] + rest)
  }

  /** A section, the padding after it and the region of the later sections are a region. */
  lemma RegionJoin(view: bytes, cursor: nat, next: nat, end: nat, first: bytes, later: seq<bytes>)
    requires cursor % 8 == 0 && cursor <= next <= AlignUp(next) <= end <= |view| && later != []
    requires first == view[cursor..next] && view[next..AlignUp(next)] == Padding(next)
    requires RegionFrom(AlignUp(next), later) == view[AlignUp(next)..end]
    ensures RegionFrom(cursor, [first] + later) == view[cursor..end]
  {
    hide RegionFrom, AlignUp, Padding;
    AlignedAlready(cursor);
    RegionShift(next, later);
    RegionCons(cursor, first, later);
    assert cursor + |first| == next;
    var aligned := AlignUp(next);
    assert view[cursor..end] == view[cursor..next] + view[next..aligned] + view[aligned..end];
    assert [] + first == first;
  }

  lemma {:induction false} SectionsReencode(
    view: bytes, cursor: nat, count: nat, previous: Option<nat>, tileCount: Option<nat>)
    requires cursor <= |view| && cursor % 8 == 0
    requires UnpackSections(view, cursor, count, previous, tileCount).Ok?
    ensures var (sections, end) := UnpackSections(view, cursor, count, previous, tileCount).value;
            Repacked(sections).Ok? && RegionFrom(cursor, Repacked(sections).value) == view[cursor..end]
    decreases count
  {
    hide ParseSection, PackTensorSection, TileLengths, RegionFrom, AlignUp, Padding;
    if count == 0 {
      RegionNone(cursor);
    } else {
      var (section, next) := SectionAt(view, cursor, previous, tileCount).value;
      SectionReencode(view[cursor..]);
      var first := PackTensorSection(section).value;
      assert first == view[cursor..next];
      AlignedAlready(cursor);
      if count > 1 {
        var aligned := AlignUp(next);
        var (later, end) := UnpackSections(view, aligned, count - 1, Some(section.desc.roleId), tileCount).value;
        SectionsReencode(view, aligned, count - 1, Some(section.desc.roleId), tileCount);
        var inner := Repacked(later).value;
        RepackedLength(later);
        PaddingUnique(view[next..aligned], next);
        RegionJoin(view, cursor, next, end, first, inner);
        assert ([section] + later)[1..] == later;
      } else {
        RegionCons(cursor, first, []);
        RegionNone(next);
        assert [first] + [] == [first];
        assert Repacked([section]) == Ok([first]);
      }
    }
  }

  lemma {:induction false} RepackedLength(views: seq<View>)
    requires Repacked(views).Ok?
    ensures |Repacked(views).value| == |views|
  {
    if views != [] {
      RepackedLength(views[1..]);
    }
  }

  /** An accepted body with no tile index packs, section by section, to the same bytes. */
  lemma TensorBodyReencode(view: bytes, sectionCount: nat, tileCount: Option<nat>)
    requires UnpackTensorBody(view, 0, sectionCount, tileCount).Ok?
    ensures var sections := UnpackTensorBody(view, 0, sectionCount, tileCount).value.sections;
            Repacked(sections).Ok? && PackRegion(Repacked(sections).value) == view
  {
    SectionsReencode(view, 0, sectionCount, None, tileCount);
    assert view[0..|view|] == view;
  }

  /** The parser: the padding after the tile index, then the sections. */
  method ParseTensorBody(view: bytes, tileIndexBytes: nat, sectionCount: nat, tileCount: Option<nat>)
    returns (r: Result<BodyView, Fault>)
    ensures r == UnpackTensorBody(view, tileIndexBytes, sectionCount, tileCount)
  {
    hide UnpackSections, AlignUp;
    if |view| < tileIndexBytes {
      return Err(BadLength);
    }
    var cursor := tileIndexBytes;
    if sectionCount > 0 {
      var aligned := AlignUp(cursor);
      if aligned > |view| {
        return Err(BadLength);
      }
      if !AllZero(view[cursor..aligned]) {
        return Err(BadPadding);
      }
      cursor := aligned;
    }
    var parsed := ParseSections(view, cursor, sectionCount, tileCount);
    if parsed.Err? {
      return Err(parsed.error);
    }
    if parsed.value.1 != |view| {
      return Err(BadLength);
    }
    return Ok(BodyView(view[..tileIndexBytes], parsed.value.0));
  }

  lemma SectionsStep(view: bytes, cursor: nat, count: nat, previous: Option<nat>, tileCount: Option<nat>)
    requires cursor <= |view| && count > 0
    ensures var all, first := UnpackSections(view, cursor, count, previous, tileCount),
                              SectionAt(view, cursor, previous, tileCount);
            if first.Err? then all == Err(first.error)
            else
              var (section, next) := first.value;
              var start := if count > 1 then NextBoundary(view, next) else Ok(next);
              if start.Err? then all == Err(start.error)
              else all == PrependTo([section],
                                    UnpackSections(view, start.value, count - 1, Some(section.desc.roleId), tileCount))
  {
    hide SectionAt, NextBoundary;
    var first := SectionAt(view, cursor, previous, tileCount);
    assert first.Ok? ==> [first.value.0] + [] == [first.value.0];
  }

  lemma NoSectionsLeft(view: bytes, cursor: nat, previous: Option<nat>, tileCount: Option<nat>, sections: seq<View>)
    requires cursor <= |view|
    ensures PrependTo(sections, UnpackSections(view, cursor, 0, previous, tileCount)) == Ok((sections, cursor))
  {
    assert sections + [] == sections;
  }

  /** The loop over the sections, from descriptor to descriptor. */
  method ParseSections(view: bytes, start: nat, sectionCount: nat, tileCount: Option<nat>)
    returns (r: Result<(seq<View>, nat), Fault>)
    requires start <= |view|
    ensures r == UnpackSections(view, start, sectionCount, None, tileCount)
  {
    hide ParseSection, TileLengths, AlignUp, AllZero, UnpackSections, PrependTo;
    var cursor := start;
    var sections: seq<View> := [];
    var previous: Option<nat> := None;
    var index := 0;
    PrependToNone(UnpackSections(view, start, sectionCount, None, tileCount));
    while index < sectionCount
      invariant 0 <= index <= sectionCount && 0 <= cursor <= |view|
      invariant UnpackSections(view, start, sectionCount, None, tileCount) ==
                PrependTo(sections, UnpackSections(view, cursor, sectionCount - index, previous, tileCount))
    {
      SectionsStep(view, cursor, sectionCount - index, previous, tileCount);
      PrependToErr(sections, UnpackSections(view, cursor, sectionCount - index, previous, tileCount));
      var parsed := ParseSection(view[cursor..]);
      if parsed.Err? {
        return Err(parsed.error);
      }
      var (section, consumed) := parsed.value;
      if previous.Some? && section.desc.roleId <= previous.value {
        return Err(BadOrder);
      }
      if tileCount.Some? && |TileLengths(section)| != tileCount.value {
        return Err(BadCount);
      }
      var next := cursor + consumed;
      assert SectionAt(view, cursor, previous, tileCount) == Ok((section, next));
      if index + 1 < sectionCount {
        var aligned := AlignUp(next);
        if aligned > |view| {
          return Err(BadLength);
        }
        if !AllZero(view[next..aligned]) {
          return Err(BadPadding);
        }
        cursor := aligned;
      } else {
        cursor := next;
      }
      PrependToOne(sections, section,
                UnpackSections(view, cursor, sectionCount - index - 1, Some(section.desc.roleId), tileCount));
      sections := sections + [section];
      previous := Some(section.desc.roleId);
      index := index + 1;
    }
    assert sectionCount - index == 0;
    NoSectionsLeft(view, cursor, previous, tileCount, sections);
    return Ok((sections, cursor));
  }
}
