/** Which bytes are a tensor section and where its payloads lie (src/nnrp/core/packet.py:1573-1604 and 2666-2730). */
module SectionLayout {
  import opened Outcomes
  import opened Wire
  import opened Alignment
  import opened TensorSections

  /**
   The tables of a section agree with its descriptor: their sizes are the stated ones, the lengths are four bytes each,
   bit 1 of the flags says that there is a stride and bit 0 that there is a codec table, with one entry per length.
   */
  lemma CheckViewIff(v: View)
    ensures CheckView(v).Ok? <==>
            && |v.codecTable| == v.desc.codecTableBytes && |v.lengthTable| == v.desc.lengthTableBytes
            && |v.payload| == v.desc.payloadBytes
            && |v.lengthTable| % 4 == 0
            && (v.desc.payloadStride != 0 <==> (v.desc.flags / 2) % 2 == 1)
            && (v.codecTable != [] <==> v.desc.flags % 2 == 1)
            && (v.codecTable != [] ==> 4 * |v.codecTable| == |v.lengthTable|)
  {
  }

  /** The lengths of a section are the four-byte numbers of its table. */
  lemma LengthsAt(v: View)
    requires |v.lengthTable| % 4 == 0
    ensures |TileLengths(v)| == |v.lengthTable| / 4
    ensures forall k :: 0 <= k < |TileLengths(v)| ==> TileLengths(v)[k] == DecodeLe(v.lengthTable[4 * k..4 * k + 4])
  {
    hide DecodeAll, DecodeLe;
    forall k | 0 <= k < |TileLengths(v)|
      ensures TileLengths(v)[k] == DecodeLe(v.lengthTable[4 * k..4 * k + 4])
    {
      EntryAt(v.lengthTable, 4, k);
    }
  }

  /** A slot holds a payload of its length and then zeros. */
  ghost predicate SlotHolds(payload: bytes, stride: nat, k: nat, length: nat) {
    && length <= stride && stride * k + stride <= |payload|
    && forall i :: stride * k + length <= i < stride * k + stride ==> payload[i] == 0
  }

  /** A slice is what its slot begins with. */
  ghost predicate SliceAt(payload: bytes, stride: nat, k: nat, slice: bytes) {
    stride * k + |slice| <= |payload| && slice == payload[stride * k..stride * k + |slice|]
  }

  /** With a stride, payload `k` starts at `k` strides and the rest of its slot is zero. */
  lemma {:induction false} StridedIff(payload: bytes, lengths: seq<nat>, stride: nat)
    requires Slotted(payload, lengths, stride)
    ensures var r := StridedSlices(payload, lengths, stride);
            && (r.Ok? <==> forall k :: 0 <= k < |lengths| ==> SlotHolds(payload, stride, k, lengths[k]))
            && (r.Ok? ==> forall k :: 0 <= k < |lengths| ==> SliceAt(payload, stride, k, r.value[k]))
    decreases lengths
  {
    if lengths != [] {
      hide SlotHolds, SliceAt, AllZero;
      SlottedRest(payload, lengths, stride);
      var rest, later := payload[stride..], lengths[1..];
      StridedIff(rest, later, stride);
      FirstSlot(payload, stride, lengths[0]);
      forall k | 0 < k < |lengths|
        ensures SlotHolds(payload, stride, k, lengths[k]) <==> SlotHolds(rest, stride, k - 1, later[k - 1])
      {
        SlotMoves(payload, stride, k, lengths[k]);
      }
      if StridedSlices(payload, lengths, stride).Ok? {
        var all, tail := StridedSlices(payload, lengths, stride).value, StridedSlices(rest, later, stride).value;
        forall k | 0 <= k < |lengths|
          ensures SliceAt(payload, stride, k, all[k])
        {
          if k > 0 {
            assert all[k] == tail[k - 1];
            SliceMoves(payload, stride, k, all[k]);
          } else {
            FirstSlice(payload, stride, lengths[0]);
          }
        }
      } else if StridedSlices(rest, later, stride).Err? {
        var k :| 0 <= k < |later| && !SlotHolds(rest, stride, k, later[k]);
        assert !SlotHolds(payload, stride, k + 1, lengths[k + 1]);
      }
    }
  }

  lemma FirstSlice(payload: bytes, stride: nat, length: nat)
    requires length <= |payload|
    ensures SliceAt(payload, stride, 0, payload[..length])
  {
    assert stride * 0 == 0;
  }

  lemma SliceMoves(payload: bytes, stride: nat, k: nat, slice: bytes)
    requires k > 0 && stride <= |payload| && SliceAt(payload[stride..], stride, k - 1, slice)
    ensures SliceAt(payload, stride, k, slice)
  {
    var at := stride * (k - 1);
    assert stride * k == stride + at;
    assert payload[stride..][at..at + |slice|] == payload[stride + at..stride + at + |slice|];
  }

  lemma SlotMoves(payload: bytes, stride: nat, k: nat, length: nat)
    requires k > 0 && stride <= |payload|
    ensures SlotHolds(payload, stride, k, length) <==> SlotHolds(payload[stride..], stride, k - 1, length)
  {
    var rest, at := payload[stride..], stride * (k - 1);
    assert stride * k == stride + at;
    assert forall i :: stride <= i < |payload| ==> payload[i] == rest[i - stride];
    if SlotHolds(payload, stride, k, length) {
      forall i | at + length <= i < at + stride
        ensures rest[i] == 0
      {
        assert payload[i + stride] == 0;
      }
    }
  }

  lemma FirstSlot(payload: bytes, stride: nat, length: nat)
    requires stride <= |payload|
    ensures SlotHolds(payload, stride, 0, length) <==> length <= stride && AllZero(payload[length..stride])
  {
    assert stride * 0 == 0;
    if length <= stride {
      var slot := payload[length..stride];
      assert forall i :: 0 <= i < |slot| ==> slot[i] == payload[length + i];
      if AllZero(slot) {
        forall i | length <= i < stride
          ensures payload[i] == 0
        {
          assert slot[i - length] == 0;
        }
      }
    }
  }

  /** Without a stride the payloads follow each other. */
  lemma {:induction false} BackToBack(payload: bytes, lengths: seq<nat>)
    requires |payload| == Sum(lengths)
    ensures Join(PackedSlices(payload, lengths)) == payload
  {
    if lengths != [] {
      BackToBack(payload[lengths[0]..], lengths[1..]);
      JoinFirst(payload[..lengths[0]], PackedSlices(payload[lengths[0]..], lengths[1..]));
    }
  }

  /**
   The payloads of a section: one for each length. With a stride there is a slot for each, payload first and then
   zeros; without one they follow each other and fill the region.
   */
  lemma PayloadsIff(v: View)
    requires |v.lengthTable| % 4 == 0
    ensures var lengths, stride, r := TileLengths(v), v.desc.payloadStride, PayloadSlices(v);
            && (stride != 0 ==>
                  (r.Ok? <==> && |v.payload| == stride * |lengths|
                              && forall k :: 0 <= k < |lengths| ==> SlotHolds(v.payload, stride, k, lengths[k])))
            && (stride == 0 ==> (r.Ok? <==> |v.payload| == Sum(lengths)))
            && (r.Ok? ==> |r.value| == |lengths| && forall k :: 0 <= k < |lengths| ==> |r.value[k]| == lengths[k])
            && (r.Ok? && stride == 0 ==> Join(r.value) == v.payload)
            && (r.Ok? && stride != 0 ==>
                  forall k :: 0 <= k < |lengths| ==> SliceAt(v.payload, stride, k, r.value[k]))
  {
    hide TileLengths, StridedSlices, PackedSlices, Sum, SlotHolds, SliceAt, Join;
    var lengths, stride := TileLengths(v), v.desc.payloadStride;
    if PayloadSlices(v).Ok? {
      SliceLengths(v);
    }
    if stride != 0 {
      if |v.payload| == stride * |lengths| {
        StridedIff(v.payload, lengths, stride);
      }
    } else if Sum(lengths) == |v.payload| {
      BackToBack(v.payload, lengths);
    }
  }
}
