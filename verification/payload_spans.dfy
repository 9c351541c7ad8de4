/** Descriptor tables that point into a payload region (src/nnrp/core/packet.py:1479-1500). */
module PayloadSpans {
  import opened Outcomes
  import opened Wire

  datatype Span = Span(offset: nat, length: nat) {
    function End(): nat {
      offset + length
    }
  }

  /** The check of each span against its predecessor and the region's length. */
  function CheckSpans(spans: seq<Span>, regionLength: nat, previousEnd: int): (r: Result<(), Fault>) {
    if spans == [] then Ok(())
    else if spans[0].offset < previousEnd then Err(BadOffset)
    else if spans[0].End() > regionLength then Err(BadOffset)
    else CheckSpans(spans[1..], regionLength, spans[0].End())
  }

  function ValidateOffsets(spans: seq<Span>, regionLength: nat): (r: Result<(), Fault>) {
    CheckSpans(spans, regionLength, -1)
  }

  /** Every earlier span ends before every later one starts, and all lie in the region. */
  predicate Disjoint(spans: seq<Span>, regionLength: nat) {
    && (forall i, j :: 0 <= i < j < |spans| ==> spans[i].End() <= spans[j].offset)
    && (forall i :: 0 <= i < |spans| ==> spans[i].End() <= regionLength)
  }

  lemma {:induction false} CheckSpansDisjoint(spans: seq<Span>, regionLength: nat, previousEnd: int)
    ensures CheckSpans(spans, regionLength, previousEnd).Ok? <==>
            Disjoint(spans, regionLength) && (spans != [] ==> previousEnd <= spans[0].offset)
  {
    if spans != [] {
      var rest := spans[1..];
      CheckSpansDisjoint(rest, regionLength, spans[0].End());
      if CheckSpans(spans, regionLength, previousEnd).Ok? {
        forall j | 0 < j < |spans|
          ensures spans[0].End() <= spans[j].offset
        {
          assert spans[j] == rest[j - 1];
          if j > 1 {
            assert rest[0].End() <= rest[j - 1].offset;
          }
        }
        assert forall i, j :: 0 < i < j < |spans| ==> spans[i] == rest[i - 1] && spans[j] == rest[j - 1];
        assert Disjoint(spans, regionLength);
      }
    }
  }

  /** Comparing neighbours is enough: the check passes exactly when all spans are disjoint, ordered and in bounds. */
  lemma OffsetsDisjoint(spans: seq<Span>, regionLength: nat)
    ensures ValidateOffsets(spans, regionLength).Ok? <==> Disjoint(spans, regionLength)
  {
    CheckSpansDisjoint(spans, regionLength, -1);
  }

  /** The loop behind the check. */
  method ValidateDescriptorOffsets(spans: seq<Span>, regionLength: nat) returns (r: Result<(), Fault>)
    ensures r.Ok? <==> Disjoint(spans, regionLength)
    ensures r == ValidateOffsets(spans, regionLength)
  {
    OffsetsDisjoint(spans, regionLength);
    var previousEnd: int := -1;
    var i := 0;
    while i < |spans|
      invariant 0 <= i <= |spans|
      invariant CheckSpans(spans[i..], regionLength, previousEnd) == ValidateOffsets(spans, regionLength)
    {
      assert spans[i..][1..] == spans[i + 1..];
      if spans[i].offset < previousEnd {
        return Err(BadOffset);
      }
      if spans[i].End() > regionLength {
        return Err(BadOffset);
      }
      previousEnd := spans[i].End();
      i := i + 1;
    }
    return Ok(());
  }

  /** Payloads laid end to end from `offset`: the span of each. */
  function SpansFrom(payloads: seq<bytes>, offset: nat): (spans: seq<Span>)
    ensures |spans| == |payloads|
    decreases payloads
  {
    if payloads == [] then [] else [Span(offset, |payloads[0]|)] + SpansFrom(payloads[1..], offset + |payloads[0]|)
  }

  function Slice(region: bytes, span: Span): bytes
    requires span.End() <= |region|
  {
    region[span.offset..span.End()]
  }

  /** Spans laid end to end are disjoint, in bounds, and cut out the payloads again. */
  lemma {:induction false} SpansOfJoin(before: bytes, payloads: seq<bytes>)
    ensures Disjoint(SpansFrom(payloads, |before|), |before| + |Join(payloads)|)
    ensures payloads != [] ==> SpansFrom(payloads, |before|)[0].offset == |before|
    ensures forall i :: 0 <= i < |payloads| ==>
              && |before| <= SpansFrom(payloads, |before|)[i].offset
              && Slice(before + Join(payloads), SpansFrom(payloads, |before|)[i]) == payloads[i]
    decreases payloads
  {
    if payloads != [] {
      var first, rest := payloads[0], payloads[1..];
      SpansOfJoin(before + first, rest);
      assert (before + first) + Join(rest) == before + Join(payloads);
      var spans := SpansFrom(payloads, |before|);
      assert spans[1..] == SpansFrom(rest, |before + first|);
      assert forall i :: 1 <= i < |spans| ==> spans[i] == spans[1..][i - 1] && payloads[i] == rest[i - 1];
      assert Slice(before + Join(payloads), spans[0]) == first;
    }
  }

  /** A frame: what is said about it, and its payload. Its descriptor says the same and where the payload lies. */
  datatype Carried<+A> = Carried(about: A, payload: bytes)

  datatype Described<+A> = Described(about: A, span: Span)

  function Payloads<A>(frames: seq<Carried<A>>): (payloads: seq<bytes>)
    ensures |payloads| == |frames|
    ensures forall i :: 0 <= i < |frames| ==> payloads[i] == frames[i].payload
  {
    seq(|frames|, i requires 0 <= i < |frames| => frames[i].payload)
  }

  function SpansOf<A>(ds: seq<Described<A>>): (spans: seq<Span>)
    ensures |spans| == |ds| && forall i :: 0 <= i < |ds| ==> spans[i] == ds[i].span
  {
    seq(|ds|, i requires 0 <= i < |ds| => ds[i].span)
  }

  /** The descriptors of frames whose payloads are laid end to end. */
  function DescriptorsOf<A>(frames: seq<Carried<A>>, offset: nat): (ds: seq<Described<A>>)
    ensures |ds| == |frames|
    ensures forall i :: 0 <= i < |frames| ==> ds[i].about == frames[i].about
  {
    var spans := SpansFrom(Payloads(frames), offset);
    seq(|frames|, i requires 0 <= i < |frames| => Described(frames[i].about, spans[i]))
  }

  /** Laying out one more frame: its descriptor and its payload move from what is left to what is done. */
  lemma LayOutOne<A>(frames: seq<Carried<A>>, i: nat, ds: seq<Described<A>>, region: bytes)
    requires i < |frames|
    ensures var d := Described(frames[i].about, Span(|region|, |frames[i].payload|));
            ds + DescriptorsOf(frames[i..], |region|)
            == (ds + [d]) + DescriptorsOf(frames[i + 1..], |region + frames[i].payload|)
    ensures region + Join(Payloads(frames[i..])) == (region + frames[i].payload) + Join(Payloads(frames[i + 1..]))
  {
    var left := frames[i..];
    assert left[0] == frames[i] && left[1..] == frames[i + 1..];
    assert Payloads(left)[1..] == Payloads(left[1..]);
    var d := Described(frames[i].about, Span(|region|, |frames[i].payload|));
    assert DescriptorsOf(left, |region|) == [d] + DescriptorsOf(left[1..], |region + frames[i].payload|);
    assert ds + ([d] + DescriptorsOf(left[1..], |region + frames[i].payload|))
        == (ds + [d]) + DescriptorsOf(left[1..], |region + frames[i].payload|);
    assert region + (frames[i].payload + Join(Payloads(left[1..])))
        == (region + frames[i].payload) + Join(Payloads(left[1..]));
  }

  /** The two ends of the layout: nothing done, and nothing left. */
  lemma LayOutEnds<A>(frames: seq<Carried<A>>, ds: seq<Described<A>>, region: bytes)
    ensures [] + DescriptorsOf(frames[0..], 0) == DescriptorsOf(frames, 0)
    ensures [] + Join(Payloads(frames[0..])) == Join(Payloads(frames))
    ensures ds + DescriptorsOf(frames[|frames|..], |region|) == ds
    ensures region + Join(Payloads(frames[|frames|..])) == region
  {
    assert frames[0..] == frames;
  }

  /** The descriptors of frames are valid for the joined payloads and cut each payload out of them. */
  lemma DescriptorsCut<A>(frames: seq<Carried<A>>)
    ensures var ds := DescriptorsOf(frames, 0);
            var region := Join(Payloads(frames));
            && ValidateOffsets(SpansOf(ds), |region|).Ok?
            && forall i :: 0 <= i < |frames| ==>
                 ds[i].span.End() <= |region| && Slice(region, ds[i].span) == frames[i].payload
  {
    hide ValidateOffsets, Join, SpansFrom;
    var ds := DescriptorsOf(frames, 0);
    var region := Join(Payloads(frames));
    assert SpansOf(ds) == SpansFrom(Payloads(frames), 0);
    SpansOfJoin([], Payloads(frames));
    assert [] + region == region;
    OffsetsDisjoint(SpansOf(ds), |region|);
    forall i | 0 <= i < |frames|
      ensures ds[i].span.End() <= |region| && Slice(region, ds[i].span) == frames[i].payload
    {
      assert SpansOf(ds)[i].End() <= |region|;
    }
  }

  /** Every descriptor of a valid table points into the region. */
  lemma ValidInBounds<A>(ds: seq<Described<A>>, regionLength: nat)
    requires ValidateOffsets(SpansOf(ds), regionLength).Ok?
    ensures forall i :: 0 <= i < |ds| ==> ds[i].span.End() <= regionLength
  {
    OffsetsDisjoint(SpansOf(ds), regionLength);
    forall i | 0 <= i < |ds|
      ensures ds[i].span.End() <= regionLength
    {
      assert SpansOf(ds)[i].End() <= regionLength;
    }
  }
}
