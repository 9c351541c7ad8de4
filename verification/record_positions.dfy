/**
 * Where each field of each wire record lies, in bytes from its start. Encoders and decoders are inverse to each other
 * elsewhere; here both are held to the positions.
 */
module RecordPositions {
  import opened Outcomes
  import opened Wire
  import opened Bits
  import Header
  import Packets
  import WebSocket
  import Metadata
  import TileIndex
  import InlineObjects
  import TypedFrames
  import ExtensionFrames
  import TensorSections
  import Bodies
  import PayloadSpans
  import RecoveryTicket

  /** The bits of a number are the digits of its powers of two. */
  lemma {:induction false} BitIsDigit(value: nat, i: nat)
    ensures Bit(value, i) <==> (value / Pow2(i)) % 2 == 1
  {
    if i > 0 {
      BitIsDigit(value / 2, i - 1);
      HalfThen(value, Pow2(i - 1));
    }
  }

  lemma HalfThen(value: nat, p: nat)
    requires p >= 1
    ensures (value / 2) / p == value / (2 * p)
  {
    var q, r := value / (2 * p), value % (2 * p);
    assert value == 2 * p * q + r;
    assert value / 2 == p * q + r / 2 by {
      assert value == 2 * (p * q) + r;
    }
    assert r / 2 < p;
    QuotientOf(value / 2, p, q, r / 2);
  }

  lemma QuotientOf(value: nat, p: nat, q: nat, r: nat)
    requires p >= 1 && r < p && value == p * q + r
    ensures value / p == q
  {
    var d := value / p;
    assert value == p * d + value % p;
    assert p * (d - q) == r - value % p;
    Grows(p, d - q);
  }

  lemma Grows(p: int, k: int)
    requires p >= 1
    ensures k >= 1 ==> p * k >= p
    ensures k <= -1 ==> p * k <= -p
  {
  }

  // The fields of each layout, as numbers read from the bytes

  lemma HeaderOffsets()
    ensures Size(Header.LAYOUT) == 40
    ensures var l := Header.LAYOUT;
            && |l| == 13
            && At(l, 0) == 0 && l[0] == 4 && At(l, 1) == 4 && l[1] == 1 && At(l, 2) == 5 && l[2] == 1
            && At(l, 3) == 6 && l[3] == 1 && At(l, 4) == 7 && l[4] == 1 && At(l, 5) == 8 && l[5] == 4
            && At(l, 6) == 12 && l[6] == 4 && At(l, 7) == 16 && l[7] == 4 && At(l, 8) == 20 && l[8] == 4
            && At(l, 9) == 24 && l[9] == 4 && At(l, 10) == 28 && l[10] == 2 && At(l, 11) == 30 && l[11] == 2
            && At(l, 12) == 32 && l[12] == 8
  {
    hide Size;
    Header.LayoutSize();
    var l := Header.LAYOUT;
    assert At(l, 0) == 0;
    assert At(l, 1) == 4;
    assert At(l, 2) == 5;
    assert At(l, 3) == 6;
    assert At(l, 4) == 7;
    assert At(l, 5) == 8;
    assert At(l, 6) == 12;
    assert At(l, 7) == 16;
    assert At(l, 8) == 20;
    assert At(l, 9) == 24;
    assert At(l, 10) == 28;
    assert At(l, 11) == 30;
    assert At(l, 12) == 32;
  }

  lemma HeaderFields(s: bytes)
    requires |s| == 40
    ensures Size(Header.LAYOUT) == 40
    ensures var v := UnpackRecord(s, Header.LAYOUT);
            && |v| == 13
            && v[0] == DecodeLe(s[0..4]) && v[1] == s[4] as nat && v[2] == s[5] as nat && v[3] == s[6] as nat
            && v[4] == s[7] as nat && v[5] == DecodeLe(s[8..12]) && v[6] == DecodeLe(s[12..16])
            && v[7] == DecodeLe(s[16..20]) && v[8] == DecodeLe(s[20..24]) && v[9] == DecodeLe(s[24..28])
            && v[10] == DecodeLe(s[28..30]) && v[11] == DecodeLe(s[30..32]) && v[12] == DecodeLe(s[32..40])
  {
    hide DecodeLe, Capacity, UnpackRecord, Size, At;
    HeaderOffsets();
    FieldAt(s, Header.LAYOUT, 0);
    FieldAt(s, Header.LAYOUT, 1);
    FieldAt(s, Header.LAYOUT, 2);
    FieldAt(s, Header.LAYOUT, 3);
    FieldAt(s, Header.LAYOUT, 4);
    FieldAt(s, Header.LAYOUT, 5);
    FieldAt(s, Header.LAYOUT, 6);
    FieldAt(s, Header.LAYOUT, 7);
    FieldAt(s, Header.LAYOUT, 8);
    FieldAt(s, Header.LAYOUT, 9);
    FieldAt(s, Header.LAYOUT, 10);
    FieldAt(s, Header.LAYOUT, 11);
    FieldAt(s, Header.LAYOUT, 12);
    OneByte(s, 4);
    OneByte(s, 5);
    OneByte(s, 6);
    OneByte(s, 7);
  }

  lemma SubmitOffsets()
    ensures Size(Metadata.SUBMIT_LAYOUT) == 72
    ensures var l := Metadata.SUBMIT_LAYOUT;
            && |l| == 28
            && At(l, 0) == 0 && l[0] == 2 && At(l, 1) == 2 && l[1] == 2 && At(l, 2) == 4 && l[2] == 2
            && At(l, 3) == 6 && l[3] == 2 && At(l, 4) == 8 && l[4] == 2 && At(l, 5) == 10 && l[5] == 2
            && At(l, 6) == 12 && l[6] == 1 && At(l, 7) == 13 && l[7] == 1 && At(l, 8) == 14 && l[8] == 1
            && At(l, 9) == 15 && l[9] == 1 && At(l, 10) == 16 && l[10] == 2 && At(l, 11) == 18 && l[11] == 2
            && At(l, 12) == 20 && l[12] == 4 && At(l, 13) == 24 && l[13] == 4 && At(l, 14) == 28 && l[14] == 4
            && At(l, 15) == 32 && l[15] == 4 && At(l, 16) == 36 && l[16] == 4 && At(l, 17) == 40 && l[17] == 8
            && At(l, 18) == 48 && l[18] == 4 && At(l, 19) == 52 && l[19] == 1 && At(l, 20) == 53 && l[20] == 1
            && At(l, 21) == 54 && l[21] == 1 && At(l, 22) == 55 && l[22] == 1 && At(l, 23) == 56 && l[23] == 4
            && At(l, 24) == 60 && l[24] == 4 && At(l, 25) == 64 && l[25] == 4 && At(l, 26) == 68 && l[26] == 2
            && At(l, 27) == 70 && l[27] == 2
  {
    hide Size;
    Metadata.SubmitSize();
    var l := Metadata.SUBMIT_LAYOUT;
    assert At(l, 0) == 0;
    assert At(l, 1) == 2;
    assert At(l, 2) == 4;
    assert At(l, 3) == 6;
    assert At(l, 4) == 8;
    assert At(l, 5) == 10;
    assert At(l, 6) == 12;
    assert At(l, 7) == 13;
    assert At(l, 8) == 14;
    assert At(l, 9) == 15;
    assert At(l, 10) == 16;
    assert At(l, 11) == 18;
    assert At(l, 12) == 20;
    assert At(l, 13) == 24;
    assert At(l, 14) == 28;
    assert At(l, 15) == 32;
    assert At(l, 16) == 36;
    assert At(l, 17) == 40;
    assert At(l, 18) == 48;
    assert At(l, 19) == 52;
    assert At(l, 20) == 53;
    assert At(l, 21) == 54;
    assert At(l, 22) == 55;
    assert At(l, 23) == 56;
    assert At(l, 24) == 60;
    assert At(l, 25) == 64;
    assert At(l, 26) == 68;
    assert At(l, 27) == 70;
  }

  lemma SubmitFieldsA(s: bytes)
    requires |s| == 72
    ensures Size(Metadata.SUBMIT_LAYOUT) == 72
    ensures var v := UnpackRecord(s, Metadata.SUBMIT_LAYOUT);
            && |v| == 28
            && v[0] == DecodeLe(s[0..2]) && v[1] == DecodeLe(s[2..4]) && v[2] == DecodeLe(s[4..6])
            && v[3] == DecodeLe(s[6..8]) && v[4] == DecodeLe(s[8..10]) && v[5] == DecodeLe(s[10..12])
            && v[6] == s[12] as nat && v[7] == s[13] as nat && v[8] == s[14] as nat && v[9] == s[15] as nat
  {
    hide DecodeLe, Capacity, UnpackRecord, Size, At;
    SubmitOffsets();
    FieldAt(s, Metadata.SUBMIT_LAYOUT, 0);
    FieldAt(s, Metadata.SUBMIT_LAYOUT, 1);
    FieldAt(s, Metadata.SUBMIT_LAYOUT, 2);
    FieldAt(s, Metadata.SUBMIT_LAYOUT, 3);
    FieldAt(s, Metadata.SUBMIT_LAYOUT, 4);
    FieldAt(s, Metadata.SUBMIT_LAYOUT, 5);
    FieldAt(s, Metadata.SUBMIT_LAYOUT, 6);
    FieldAt(s, Metadata.SUBMIT_LAYOUT, 7);
    FieldAt(s, Metadata.SUBMIT_LAYOUT, 8);
    FieldAt(s, Metadata.SUBMIT_LAYOUT, 9);
    OneByte(s, 12);
    OneByte(s, 13);
    OneByte(s, 14);
    OneByte(s, 15);
  }

  lemma SubmitFieldsB(s: bytes)
    requires |s| == 72
    ensures Size(Metadata.SUBMIT_LAYOUT) == 72
    ensures var v := UnpackRecord(s, Metadata.SUBMIT_LAYOUT);
            && |v| == 28
            && v[10] == DecodeLe(s[16..18]) && v[11] == DecodeLe(s[18..20]) && v[12] == DecodeLe(s[20..24])
            && v[13] == DecodeLe(s[24..28]) && v[14] == DecodeLe(s[28..32]) && v[15] == DecodeLe(s[32..36])
            && v[16] == DecodeLe(s[36..40]) && v[17] == DecodeLe(s[40..48]) && v[18] == DecodeLe(s[48..52])
  {
    hide DecodeLe, Capacity, UnpackRecord, Size, At;
    SubmitOffsets();
    FieldAt(s, Metadata.SUBMIT_LAYOUT, 10);
    FieldAt(s, Metadata.SUBMIT_LAYOUT, 11);
    FieldAt(s, Metadata.SUBMIT_LAYOUT, 12);
    FieldAt(s, Metadata.SUBMIT_LAYOUT, 13);
    FieldAt(s, Metadata.SUBMIT_LAYOUT, 14);
    FieldAt(s, Metadata.SUBMIT_LAYOUT, 15);
    FieldAt(s, Metadata.SUBMIT_LAYOUT, 16);
    FieldAt(s, Metadata.SUBMIT_LAYOUT, 17);
    FieldAt(s, Metadata.SUBMIT_LAYOUT, 18);
  }

  lemma SubmitFieldsC(s: bytes)
    requires |s| == 72
    ensures Size(Metadata.SUBMIT_LAYOUT) == 72
    ensures var v := UnpackRecord(s, Metadata.SUBMIT_LAYOUT);
            && |v| == 28
            && v[19] == s[52] as nat && v[20] == s[53] as nat && v[21] == s[54] as nat && v[22] == s[55] as nat
            && v[23] == DecodeLe(s[56..60]) && v[24] == DecodeLe(s[60..64]) && v[25] == DecodeLe(s[64..68])
            && v[26] == DecodeLe(s[68..70]) && v[27] == DecodeLe(s[70..72])
  {
    hide DecodeLe, Capacity, UnpackRecord, Size, At;
    SubmitOffsets();
    FieldAt(s, Metadata.SUBMIT_LAYOUT, 19);
    FieldAt(s, Metadata.SUBMIT_LAYOUT, 20);
    FieldAt(s, Metadata.SUBMIT_LAYOUT, 21);
    FieldAt(s, Metadata.SUBMIT_LAYOUT, 22);
    FieldAt(s, Metadata.SUBMIT_LAYOUT, 23);
    FieldAt(s, Metadata.SUBMIT_LAYOUT, 24);
    FieldAt(s, Metadata.SUBMIT_LAYOUT, 25);
    FieldAt(s, Metadata.SUBMIT_LAYOUT, 26);
    FieldAt(s, Metadata.SUBMIT_LAYOUT, 27);
    OneByte(s, 52);
    OneByte(s, 53);
    OneByte(s, 54);
    OneByte(s, 55);
  }

  lemma TypedOffsets()
    ensures Size(TypedFrames.DESCRIPTOR_LAYOUT) == 24
    ensures var l := TypedFrames.DESCRIPTOR_LAYOUT;
            && |l| == 9
            && At(l, 0) == 0 && l[0] == 2 && At(l, 1) == 2 && l[1] == 1 && At(l, 2) == 3 && l[2] == 1
            && At(l, 3) == 4 && l[3] == 4 && At(l, 4) == 8 && l[4] == 4 && At(l, 5) == 12 && l[5] == 2
            && At(l, 6) == 14 && l[6] == 2 && At(l, 7) == 16 && l[7] == 4 && At(l, 8) == 20 && l[8] == 4
  {
    hide Size;
    TypedFrames.DescriptorSize();
    var l := TypedFrames.DESCRIPTOR_LAYOUT;
    assert At(l, 0) == 0;
    assert At(l, 1) == 2;
    assert At(l, 2) == 3;
    assert At(l, 3) == 4;
    assert At(l, 4) == 8;
    assert At(l, 5) == 12;
    assert At(l, 6) == 14;
    assert At(l, 7) == 16;
    assert At(l, 8) == 20;
  }

  lemma TypedFields(s: bytes)
    requires |s| == 24
    ensures Size(TypedFrames.DESCRIPTOR_LAYOUT) == 24
    ensures var v := UnpackRecord(s, TypedFrames.DESCRIPTOR_LAYOUT);
            && |v| == 9
            && v[0] == DecodeLe(s[0..2]) && v[1] == s[2] as nat && v[2] == s[3] as nat
            && v[3] == DecodeLe(s[4..8]) && v[4] == DecodeLe(s[8..12]) && v[5] == DecodeLe(s[12..14])
            && v[6] == DecodeLe(s[14..16]) && v[7] == DecodeLe(s[16..20]) && v[8] == DecodeLe(s[20..24])
  {
    hide DecodeLe, Capacity, UnpackRecord, Size, At;
    TypedOffsets();
    FieldAt(s, TypedFrames.DESCRIPTOR_LAYOUT, 0);
    FieldAt(s, TypedFrames.DESCRIPTOR_LAYOUT, 1);
    FieldAt(s, TypedFrames.DESCRIPTOR_LAYOUT, 2);
    FieldAt(s, TypedFrames.DESCRIPTOR_LAYOUT, 3);
    FieldAt(s, TypedFrames.DESCRIPTOR_LAYOUT, 4);
    FieldAt(s, TypedFrames.DESCRIPTOR_LAYOUT, 5);
    FieldAt(s, TypedFrames.DESCRIPTOR_LAYOUT, 6);
    FieldAt(s, TypedFrames.DESCRIPTOR_LAYOUT, 7);
    FieldAt(s, TypedFrames.DESCRIPTOR_LAYOUT, 8);
    OneByte(s, 2);
    OneByte(s, 3);
  }

  lemma ExtensionOffsets()
    ensures Size(ExtensionFrames.DESCRIPTOR_LAYOUT) == 16
    ensures var l := ExtensionFrames.DESCRIPTOR_LAYOUT;
            && |l| == 6
            && At(l, 0) == 0 && l[0] == 2 && At(l, 1) == 2 && l[1] == 2 && At(l, 2) == 4 && l[2] == 2
            && At(l, 3) == 6 && l[3] == 2 && At(l, 4) == 8 && l[4] == 4 && At(l, 5) == 12 && l[5] == 4
  {
    hide Size;
    ExtensionFrames.DescriptorSize();
    var l := ExtensionFrames.DESCRIPTOR_LAYOUT;
    assert At(l, 0) == 0;
    assert At(l, 1) == 2;
    assert At(l, 2) == 4;
    assert At(l, 3) == 6;
    assert At(l, 4) == 8;
    assert At(l, 5) == 12;
  }

  lemma ExtensionFields(s: bytes)
    requires |s| == 16
    ensures Size(ExtensionFrames.DESCRIPTOR_LAYOUT) == 16
    ensures var v := UnpackRecord(s, ExtensionFrames.DESCRIPTOR_LAYOUT);
            && |v| == 6
            && v[0] == DecodeLe(s[0..2]) && v[1] == DecodeLe(s[2..4]) && v[2] == DecodeLe(s[4..6])
            && v[3] == DecodeLe(s[6..8]) && v[4] == DecodeLe(s[8..12]) && v[5] == DecodeLe(s[12..16])
  {
    hide DecodeLe, Capacity, UnpackRecord, Size, At;
    ExtensionOffsets();
    FieldAt(s, ExtensionFrames.DESCRIPTOR_LAYOUT, 0);
    FieldAt(s, ExtensionFrames.DESCRIPTOR_LAYOUT, 1);
    FieldAt(s, ExtensionFrames.DESCRIPTOR_LAYOUT, 2);
    FieldAt(s, ExtensionFrames.DESCRIPTOR_LAYOUT, 3);
    FieldAt(s, ExtensionFrames.DESCRIPTOR_LAYOUT, 4);
    FieldAt(s, ExtensionFrames.DESCRIPTOR_LAYOUT, 5);
  }

  lemma BlockOffsets()
    ensures Size(InlineObjects.BLOCK_LAYOUT) == 16
    ensures var l := InlineObjects.BLOCK_LAYOUT;
            && |l| == 6
            && At(l, 0) == 0 && l[0] == 2 && At(l, 1) == 2 && l[1] == 2 && At(l, 2) == 4 && l[2] == 2
            && At(l, 3) == 6 && l[3] == 2 && At(l, 4) == 8 && l[4] == 4 && At(l, 5) == 12 && l[5] == 4
  {
    hide Size;
    InlineObjects.BlockHeaderSize();
    var l := InlineObjects.BLOCK_LAYOUT;
    assert At(l, 0) == 0;
    assert At(l, 1) == 2;
    assert At(l, 2) == 4;
    assert At(l, 3) == 6;
    assert At(l, 4) == 8;
    assert At(l, 5) == 12;
  }

  lemma BlockFields(s: bytes)
    requires |s| == 16
    ensures Size(InlineObjects.BLOCK_LAYOUT) == 16
    ensures var v := UnpackRecord(s, InlineObjects.BLOCK_LAYOUT);
            && |v| == 6
            && v[0] == DecodeLe(s[0..2]) && v[1] == DecodeLe(s[2..4]) && v[2] == DecodeLe(s[4..6])
            && v[3] == DecodeLe(s[6..8]) && v[4] == DecodeLe(s[8..12]) && v[5] == DecodeLe(s[12..16])
  {
    hide DecodeLe, Capacity, UnpackRecord, Size, At;
    BlockOffsets();
    FieldAt(s, InlineObjects.BLOCK_LAYOUT, 0);
    FieldAt(s, InlineObjects.BLOCK_LAYOUT, 1);
    FieldAt(s, InlineObjects.BLOCK_LAYOUT, 2);
    FieldAt(s, InlineObjects.BLOCK_LAYOUT, 3);
    FieldAt(s, InlineObjects.BLOCK_LAYOUT, 4);
    FieldAt(s, InlineObjects.BLOCK_LAYOUT, 5);
  }

  lemma ReferenceOffsets()
    ensures Size(InlineObjects.REFERENCE_LAYOUT) == 24
    ensures var l := InlineObjects.REFERENCE_LAYOUT;
            && |l| == 5
            && At(l, 0) == 0 && l[0] == 2 && At(l, 1) == 2 && l[1] == 2 && At(l, 2) == 4 && l[2] == 4
            && At(l, 3) == 8 && l[3] == 8 && At(l, 4) == 16 && l[4] == 8
  {
    hide Size;
    InlineObjects.ReferenceSize();
    var l := InlineObjects.REFERENCE_LAYOUT;
    assert At(l, 0) == 0;
    assert At(l, 1) == 2;
    assert At(l, 2) == 4;
    assert At(l, 3) == 8;
    assert At(l, 4) == 16;
  }

  lemma ReferenceFields(s: bytes)
    requires |s| == 24
    ensures Size(InlineObjects.REFERENCE_LAYOUT) == 24
    ensures var v := UnpackRecord(s, InlineObjects.REFERENCE_LAYOUT);
            && |v| == 5
            && v[0] == DecodeLe(s[0..2]) && v[1] == DecodeLe(s[2..4]) && v[2] == DecodeLe(s[4..8])
            && v[3] == DecodeLe(s[8..16]) && v[4] == DecodeLe(s[16..24])
  {
    hide DecodeLe, Capacity, UnpackRecord, Size, At;
    ReferenceOffsets();
    FieldAt(s, InlineObjects.REFERENCE_LAYOUT, 0);
    FieldAt(s, InlineObjects.REFERENCE_LAYOUT, 1);
    FieldAt(s, InlineObjects.REFERENCE_LAYOUT, 2);
    FieldAt(s, InlineObjects.REFERENCE_LAYOUT, 3);
    FieldAt(s, InlineObjects.REFERENCE_LAYOUT, 4);
  }

  lemma SectionOffsets()
    ensures Size(TensorSections.DESC_LAYOUT) == 32
    ensures var l := TensorSections.DESC_LAYOUT;
            && |l| == 12
            && At(l, 0) == 0 && l[0] == 2 && At(l, 1) == 2 && l[1] == 1 && At(l, 2) == 3 && l[2] == 1
            && At(l, 3) == 4 && l[3] == 1 && At(l, 4) == 5 && l[4] == 1 && At(l, 5) == 6 && l[5] == 2
            && At(l, 6) == 8 && l[6] == 4 && At(l, 7) == 12 && l[7] == 4 && At(l, 8) == 16 && l[8] == 4
            && At(l, 9) == 20 && l[9] == 4 && At(l, 10) == 24 && l[10] == 4 && At(l, 11) == 28 && l[11] == 4
  {
    hide Size;
    TensorSections.DescSize();
    var l := TensorSections.DESC_LAYOUT;
    assert At(l, 0) == 0;
    assert At(l, 1) == 2;
    assert At(l, 2) == 3;
    assert At(l, 3) == 4;
    assert At(l, 4) == 5;
    assert At(l, 5) == 6;
    assert At(l, 6) == 8;
    assert At(l, 7) == 12;
    assert At(l, 8) == 16;
    assert At(l, 9) == 20;
    assert At(l, 10) == 24;
    assert At(l, 11) == 28;
  }

  lemma SectionFields(s: bytes)
    requires |s| == 32
    ensures Size(TensorSections.DESC_LAYOUT) == 32
    ensures var v := UnpackRecord(s, TensorSections.DESC_LAYOUT);
            && |v| == 12
            && v[0] == DecodeLe(s[0..2]) && v[1] == s[2] as nat && v[2] == s[3] as nat && v[3] == s[4] as nat
            && v[4] == s[5] as nat && v[5] == DecodeLe(s[6..8]) && v[6] == DecodeLe(s[8..12])
            && v[7] == DecodeLe(s[12..16]) && v[8] == DecodeLe(s[16..20]) && v[9] == DecodeLe(s[20..24])
            && v[10] == DecodeLe(s[24..28]) && v[11] == DecodeLe(s[28..32])
  {
    hide DecodeLe, Capacity, UnpackRecord, Size, At;
    SectionOffsets();
    FieldAt(s, TensorSections.DESC_LAYOUT, 0);
    FieldAt(s, TensorSections.DESC_LAYOUT, 1);
    FieldAt(s, TensorSections.DESC_LAYOUT, 2);
    FieldAt(s, TensorSections.DESC_LAYOUT, 3);
    FieldAt(s, TensorSections.DESC_LAYOUT, 4);
    FieldAt(s, TensorSections.DESC_LAYOUT, 5);
    FieldAt(s, TensorSections.DESC_LAYOUT, 6);
    FieldAt(s, TensorSections.DESC_LAYOUT, 7);
    FieldAt(s, TensorSections.DESC_LAYOUT, 8);
    FieldAt(s, TensorSections.DESC_LAYOUT, 9);
    FieldAt(s, TensorSections.DESC_LAYOUT, 10);
    FieldAt(s, TensorSections.DESC_LAYOUT, 11);
    OneByte(s, 2);
    OneByte(s, 3);
    OneByte(s, 4);
    OneByte(s, 5);
  }

  lemma PreludeOffsets()
    ensures Size(Bodies.PRELUDE_LAYOUT) == 32
    ensures var l := Bodies.PRELUDE_LAYOUT;
            && |l| == 8
            && At(l, 0) == 0 && l[0] == 4 && At(l, 1) == 4 && l[1] == 4 && At(l, 2) == 8 && l[2] == 4
            && At(l, 3) == 12 && l[3] == 4 && At(l, 4) == 16 && l[4] == 4 && At(l, 5) == 20 && l[5] == 4
            && At(l, 6) == 24 && l[6] == 4 && At(l, 7) == 28 && l[7] == 4
  {
    hide Size;
    Bodies.PreludeSize();
    var l := Bodies.PRELUDE_LAYOUT;
    assert At(l, 0) == 0;
    assert At(l, 1) == 4;
    assert At(l, 2) == 8;
    assert At(l, 3) == 12;
    assert At(l, 4) == 16;
    assert At(l, 5) == 20;
    assert At(l, 6) == 24;
    assert At(l, 7) == 28;
  }

  lemma PreludeFields(s: bytes)
    requires |s| == 32
    ensures Size(Bodies.PRELUDE_LAYOUT) == 32
    ensures var v := UnpackRecord(s, Bodies.PRELUDE_LAYOUT);
            && |v| == 8
            && v[0] == DecodeLe(s[0..4]) && v[1] == DecodeLe(s[4..8]) && v[2] == DecodeLe(s[8..12])
            && v[3] == DecodeLe(s[12..16]) && v[4] == DecodeLe(s[16..20]) && v[5] == DecodeLe(s[20..24])
            && v[6] == DecodeLe(s[24..28]) && v[7] == DecodeLe(s[28..32])
  {
    hide DecodeLe, Capacity, UnpackRecord, Size, At;
    PreludeOffsets();
    FieldAt(s, Bodies.PRELUDE_LAYOUT, 0);
    FieldAt(s, Bodies.PRELUDE_LAYOUT, 1);
    FieldAt(s, Bodies.PRELUDE_LAYOUT, 2);
    FieldAt(s, Bodies.PRELUDE_LAYOUT, 3);
    FieldAt(s, Bodies.PRELUDE_LAYOUT, 4);
    FieldAt(s, Bodies.PRELUDE_LAYOUT, 5);
    FieldAt(s, Bodies.PRELUDE_LAYOUT, 6);
    FieldAt(s, Bodies.PRELUDE_LAYOUT, 7);
  }

  lemma TicketOffsets()
    ensures Size(RecoveryTicket.PREFIX) == 28
    ensures var l := RecoveryTicket.PREFIX;
            && |l| == 7
            && At(l, 0) == 0 && l[0] == 4 && At(l, 1) == 4 && l[1] == 2 && At(l, 2) == 6 && l[2] == 2
            && At(l, 3) == 8 && l[3] == 4 && At(l, 4) == 12 && l[4] == 4 && At(l, 5) == 16 && l[5] == 4
            && At(l, 6) == 20 && l[6] == 8
  {
    hide Size;
    RecoveryTicket.PrefixSize();
    var l := RecoveryTicket.PREFIX;
    assert At(l, 0) == 0;
    assert At(l, 1) == 4;
    assert At(l, 2) == 6;
    assert At(l, 3) == 8;
    assert At(l, 4) == 12;
    assert At(l, 5) == 16;
    assert At(l, 6) == 20;
  }

  lemma TicketFields(s: bytes)
    requires |s| == 28
    ensures Size(RecoveryTicket.PREFIX) == 28
    ensures var v := UnpackRecord(s, RecoveryTicket.PREFIX);
            && |v| == 7
            && v[0] == DecodeLe(s[0..4]) && v[1] == DecodeLe(s[4..6]) && v[2] == DecodeLe(s[6..8])
            && v[3] == DecodeLe(s[8..12]) && v[4] == DecodeLe(s[12..16]) && v[5] == DecodeLe(s[16..20])
            && v[6] == DecodeLe(s[20..28])
  {
    hide DecodeLe, Capacity, UnpackRecord, Size, At;
    TicketOffsets();
    FieldAt(s, RecoveryTicket.PREFIX, 0);
    FieldAt(s, RecoveryTicket.PREFIX, 1);
    FieldAt(s, RecoveryTicket.PREFIX, 2);
    FieldAt(s, RecoveryTicket.PREFIX, 3);
    FieldAt(s, RecoveryTicket.PREFIX, 4);
    FieldAt(s, RecoveryTicket.PREFIX, 5);
    FieldAt(s, RecoveryTicket.PREFIX, 6);
  }

  lemma OneByte(s: bytes, i: nat)
    requires i < |s|
    ensures DecodeLe(s[i..i + 1]) == s[i] as nat
  {
    LittleEndian(s[i..i + 1]);
  }

  // What the decoders read, and which bytes they accept

  /** A header is accepted exactly when its magic, its length, its wire format and its type are known. */
  lemma HeaderAt(s: bytes)
    ensures Header.UnpackHeader(s).Ok? <==>
            && |s| == 40 && DecodeLe(s[0..4]) == 0x50524E4E && s[5] == 0 && s[7] == 40
            && (1 <= s[6] <= 10 || 16 <= s[6] <= 28 || 32 <= s[6] <= 33 || 48 <= s[6] <= 73)
    ensures Header.UnpackHeader(s).Ok? ==>
              var h := Header.UnpackHeader(s).value;
              && h.versionMajor == s[4] && h.wireFormat == s[5] && h.msgType == s[6] && h.headerLen == s[7]
              && h.flags == DecodeLe(s[8..12]) && h.metaLen == DecodeLe(s[12..16])
              && h.bodyLen == DecodeLe(s[16..20]) && h.sessionId == DecodeLe(s[20..24])
              && h.frameId == DecodeLe(s[24..28]) && h.viewId == DecodeLe(s[28..30])
              && h.routeId == DecodeLe(s[30..32]) && h.traceId == DecodeLe(s[32..40])
  {
    hide DecodeLe, UnpackRecord, Size;
    if |s| == 40 {
      HeaderFields(s);
    }
  }

  /** The magic number is the letters NNRP, first letter first. */
  lemma MagicLetters(s: bytes)
    requires |s| == 4
    ensures DecodeLe(s) == 0x50524E4E <==> s == [0x4E, 0x4E, 0x52, 0x50]
    ensures DecodeLe(s) == 0x4B54524E <==> s == [0x4E, 0x52, 0x54, 0x4B]
  {
    hide DecodeLe;
    LittleEndian(s);
  }

  /** A bitmap names exactly the kinds whose power of two is among its digits. */
  lemma BitmapDigits(number: nat, k: nat)
    ensures k in Metadata.BitmapKinds(number) <==> k < 7 && (number / Pow2(k)) % 2 == 1
  {
    BitIsDigit(number, k);
  }

  /** The fields of accepted FRAME_SUBMIT metadata. */
  lemma SubmitAt(s: bytes)
    requires Metadata.UnpackSubmit(s).Ok?
    ensures |s| == 72
    ensures var m := Metadata.UnpackSubmit(s).value;
            && m.srcWidth == DecodeLe(s[0..2]) && m.srcHeight == DecodeLe(s[2..4])
            && m.tileWidth == DecodeLe(s[4..6]) && m.tileHeight == DecodeLe(s[6..8])
            && m.tileCount == DecodeLe(s[8..10]) && m.sectionCount == DecodeLe(s[10..12])
            && m.frameClass == s[12] && m.inputProfile == s[13]
            && m.latencyBudgetMs == DecodeLe(s[16..18]) && m.targetFpsX100 == DecodeLe(s[18..20])
            && m.retryOfFrame == DecodeLe(s[20..24]) && m.tileBaseId == DecodeLe(s[24..28])
            && m.cameraBytes == DecodeLe(s[28..32]) && m.tileIndexBytes == DecodeLe(s[32..36])
            && m.operationId == DecodeLe(s[40..48]) && m.budgetPolicy == s[53] && m.lossTolerance == s[54]
            && m.objectRefMask == DecodeLe(s[56..60]) && m.dependencyFrameId == DecodeLe(s[60..64])
            && m.payloadKinds == Metadata.BitmapKinds(DecodeLe(s[64..68]))
            && m.payloadFrameCount == DecodeLe(s[68..70])
    ensures var m := Metadata.UnpackSubmit(s).value;
            && s[14] < 4 && s[52] < 3
            && (m.tileIndexMode == TileIndex.DenseRange <==> s[14] == 0)
            && (m.tileIndexMode == TileIndex.RawU16 <==> s[14] == 1)
            && (m.tileIndexMode == TileIndex.DeltaU16 <==> s[14] == 2)
            && (m.tileIndexMode == TileIndex.Bitset <==> s[14] == 3)
            && (m.submitMode == Metadata.Inline <==> s[52] == 0)
            && (m.submitMode == Metadata.Reference <==> s[52] == 1)
            && (m.submitMode == Metadata.Mixed <==> s[52] == 2)
  {
    hide DecodeLe, UnpackRecord, Size, Metadata.BitmapKinds, Metadata.SubmitConsistent;
    if |s| == 72 {
      SubmitFieldsA(s);
      SubmitFieldsB(s);
      SubmitFieldsC(s);
    }
  }

  /** Which 72 bytes are accepted as FRAME_SUBMIT metadata. */
  lemma SubmitAcceptedIff(s: bytes)
    requires |s| == 72
    ensures Metadata.UnpackSubmit(s).Ok? <==>
            && s[13] <= 2 && s[14] <= 3 && DecodeLe(s[40..48]) != 0
            && s[52] <= 2 && s[53] <= 15 && (s[54] <= 3 || s[54] == 255) && DecodeLe(s[64..68]) <= 127
            && (DecodeLe(s[64..68]) % 2 == 0 ==>
                  && DecodeLe(s[0..2]) == 0 && DecodeLe(s[2..4]) == 0 && DecodeLe(s[4..6]) == 0
                  && DecodeLe(s[6..8]) == 0 && DecodeLe(s[8..10]) == 0 && DecodeLe(s[10..12]) == 0
                  && s[13] == 0 && DecodeLe(s[24..28]) == 0 && DecodeLe(s[28..32]) == 0
                  && DecodeLe(s[32..36]) == 0)
  {
    hide DecodeLe, UnpackRecord, Size;
    SubmitFieldsA(s);
    SubmitFieldsB(s);
    SubmitFieldsC(s);
    var number := DecodeLe(s[64..68]);
    assert Metadata.TENSOR in Metadata.BitmapKinds(number) <==> number % 2 == 1 by {
      assert Bit(number, 0) <==> number % 2 == 1;
    }
    assert Metadata.KnownKinds(Metadata.BitmapKinds(number));
    hide Metadata.BitmapKinds;
  }

  lemma TypedDescriptorAt(s: bytes)
    ensures TypedFrames.UnpackDescriptor(s).Ok? <==>
            |s| == 24 && (exists k: nat :: s[2] as nat == Pow2(k)) && s[3] <= 15 && DecodeLe(s[14..16]) == 0
    ensures TypedFrames.UnpackDescriptor(s).Ok? ==>
            var d := TypedFrames.UnpackDescriptor(s).value;
            && d.about.profileId == DecodeLe(s[0..2]) && Pow2(d.about.kind) == s[2] as nat && d.about.flags == s[3]
            && d.about.schemaId == DecodeLe(s[4..8]) && d.about.schemaVersion == DecodeLe(s[8..12])
            && d.about.semantics == DecodeLe(s[12..14])
            && d.span.offset == DecodeLe(s[16..20]) && d.span.length == DecodeLe(s[20..24])
  {
    hide DecodeLe, UnpackRecord, Size, Pow2;
    if |s| == 24 {
      TypedFields(s);
      if k: nat :| s[2] as nat == Pow2(k) {
        TypedFrames.KindOfPow2(k);
      }
    }
  }

  lemma ExtensionDescriptorAt(s: bytes)
    ensures ExtensionFrames.UnpackDescriptor(s).Ok? <==>
            |s| == 16 && DecodeLe(s[2..4]) <= 1 && DecodeLe(s[6..8]) == 0
    ensures ExtensionFrames.UnpackDescriptor(s).Ok? ==>
              var d := ExtensionFrames.UnpackDescriptor(s).value;
              && d.about.kind == DecodeLe(s[0..2]) && (d.about.critical <==> DecodeLe(s[2..4]) == 1)
              && d.about.profileId == DecodeLe(s[4..6])
              && d.span.offset == DecodeLe(s[8..12]) && d.span.length == DecodeLe(s[12..16])
  {
    hide DecodeLe, UnpackRecord, Size;
    if |s| == 16 {
      ExtensionFields(s);
    }
  }

  lemma BlockHeaderAt(s: bytes)
    ensures InlineObjects.UnpackBlockHeader(s).Ok? <==>
            && |s| == 16 && 1 <= DecodeLe(s[0..2]) <= 9
            && DecodeLe(s[2..4]) == 0 && DecodeLe(s[6..8]) == 0 && DecodeLe(s[12..16]) == 0
    ensures InlineObjects.UnpackBlockHeader(s).Ok? ==>
              var h := InlineObjects.UnpackBlockHeader(s).value;
              && h.objectKind == DecodeLe(s[0..2]) && h.profileId == DecodeLe(s[4..6])
              && h.objectBytes == DecodeLe(s[8..12])
  {
    hide DecodeLe, UnpackRecord, Size;
    if |s| == 16 {
      BlockFields(s);
    }
  }

  /** A block is its header, its object and zeros up to the next multiple of eight. */
  lemma BlockAt(s: bytes)
    requires InlineObjects.UnpackBlock(s).Ok?
    ensures |s| >= 16 && |s| % 8 == 0
    ensures var b := InlineObjects.UnpackBlock(s).value;
            && InlineObjects.UnpackBlockHeader(s[..16]) == Ok(b.header)
            && |b.payload| == b.header.objectBytes && 16 + |b.payload| <= |s| < 24 + |b.payload|
            && s[16..16 + |b.payload|] == b.payload
            && forall i :: 16 + |b.payload| <= i < |s| ==> s[i] == 0
  {
    hide InlineObjects.UnpackBlockHeader;
    var b := InlineObjects.UnpackBlock(s).value;
    var end := 16 + |b.payload|;
    assert forall i :: end <= i < |s| ==> s[i] == s[end..][i - end];
  }

  lemma ReferenceAt(s: bytes)
    ensures InlineObjects.UnpackReference(s).Ok? <==>
            |s| == 24 && 1 <= DecodeLe(s[0..2]) <= 9 && DecodeLe(s[2..4]) == 0
    ensures InlineObjects.UnpackReference(s).Ok? ==>
              var ref := InlineObjects.UnpackReference(s).value;
              && ref.objectKind == DecodeLe(s[0..2]) && ref.cacheNamespace == DecodeLe(s[4..8])
              && ref.keyHi == DecodeLe(s[8..16]) && ref.keyLo == DecodeLe(s[16..24])
  {
    hide DecodeLe, UnpackRecord, Size;
    if |s| == 24 {
      ReferenceFields(s);
    }
  }

  lemma SectionDescAt(s: bytes)
    ensures TensorSections.UnpackDesc(s).Ok? <==> |s| == 32 && s[3] < 8 && s[4] < 2 && s[5] < 3
    ensures TensorSections.UnpackDesc(s).Ok? ==>
              var d := TensorSections.UnpackDesc(s).value;
              && d.roleId == DecodeLe(s[0..2]) && d.codecId == s[2] && d.dtypeId == s[3] && d.layoutId == s[4]
              && d.scalePolicy == s[5] && d.flags == DecodeLe(s[6..8]) && d.elementCount == DecodeLe(s[8..12])
              && d.codecTableBytes == DecodeLe(s[12..16]) && d.lengthTableBytes == DecodeLe(s[16..20])
              && d.payloadBytes == DecodeLe(s[20..24]) && d.payloadStride == DecodeLe(s[24..28])
              && d.reserved == DecodeLe(s[28..32])
  {
    hide DecodeLe, UnpackRecord, Size;
    if |s| == 32 {
      SectionFields(s);
    }
  }

  /** A section is its descriptor, its codec table, its length table and its payload, one after the other. */
  lemma SectionAt(s: bytes)
    requires TensorSections.ParseSection(s).Ok?
    ensures var (v, total) := TensorSections.ParseSection(s).value;
            && 32 <= total <= |s| && TensorSections.UnpackDesc(s[..32]) == Ok(v.desc)
            && var codecEnd := 32 + v.desc.codecTableBytes;
            && var lengthEnd := codecEnd + v.desc.lengthTableBytes;
            && total == lengthEnd + v.desc.payloadBytes
            && v.codecTable == s[32..codecEnd] && v.lengthTable == s[codecEnd..lengthEnd]
            && v.payload == s[lengthEnd..total]
  {
    hide TensorSections.UnpackDesc, TensorSections.CheckView, TensorSections.PayloadSlices;
  }

  lemma CutAt(body: bytes, v: seq<nat>)
    requires |v| == 8 && 32 + v[0] + v[1] + v[2] + v[3] + v[4] + v[5] == |body|
    ensures var r := Bodies.Cut(body, v);
            && |r.inlineObjects| == v[0] && |r.references| == v[1] && |r.typedDescriptors| == v[2]
            && |r.typedPayloads| == v[3] && |r.extensionDescriptors| == v[4] && |r.extensionPayloads| == v[5]
            && body[32..] == r.inlineObjects + r.references + r.typedDescriptors + r.typedPayloads
                             + r.extensionDescriptors + r.extensionPayloads
  {
  }

  lemma BodyNumbers(s: bytes)
    requires |s| >= 32
    ensures Size(Bodies.PRELUDE_LAYOUT) == 32
    ensures var v := UnpackRecord(s[..32], Bodies.PRELUDE_LAYOUT);
            && v[0] == DecodeLe(s[0..4]) && v[1] == DecodeLe(s[4..8]) && v[2] == DecodeLe(s[8..12])
            && v[3] == DecodeLe(s[12..16]) && v[4] == DecodeLe(s[16..20]) && v[5] == DecodeLe(s[20..24])
            && v[6] == DecodeLe(s[24..28]) && v[7] == DecodeLe(s[28..32])
  {
    hide DecodeLe, UnpackRecord, Size;
    var head := s[..32];
    PreludeFields(head);
    assert head[0..4] == s[0..4] && head[4..8] == s[4..8] && head[8..12] == s[8..12] && head[12..16] == s[12..16];
    assert head[16..20] == s[16..20] && head[20..24] == s[20..24] && head[24..28] == s[24..28];
    assert head[28..32] == s[28..32];
  }

  /**
   A body is eight numbers and six regions, whose lengths are the first six numbers in the same order; the last two
   numbers are zero, and tables of references and of descriptors hold whole records.
   */
  lemma BodyAt(s: bytes)
    requires Bodies.UnpackBody(s).Ok?
    ensures |s| >= 32 && DecodeLe(s[24..28]) == 0 && DecodeLe(s[28..32]) == 0
    ensures var r := Bodies.UnpackBody(s).value;
            && |r.inlineObjects| == DecodeLe(s[0..4])
            && |r.references| == DecodeLe(s[4..8]) && |r.references| % 24 == 0
            && |r.typedDescriptors| == DecodeLe(s[8..12]) && |r.typedDescriptors| % 24 == 0
            && |r.typedPayloads| == DecodeLe(s[12..16])
            && |r.extensionDescriptors| == DecodeLe(s[16..20]) && |r.extensionDescriptors| % 16 == 0
            && |r.extensionPayloads| == DecodeLe(s[20..24])
            && s[32..] == r.inlineObjects + r.references + r.typedDescriptors + r.typedPayloads
                          + r.extensionDescriptors + r.extensionPayloads
            && Bodies.CheckRegions(r).Ok?
  {
    hide DecodeLe, UnpackRecord, Size, Bodies.CheckRegions, Bodies.Cut;
    BodyNumbers(s);
    CutAt(s, UnpackRecord(s[..32], Bodies.PRELUDE_LAYOUT));
  }

  /**
   Regions are sound when their tables and blocks unpack and the payloads of typed and of extension frames lie within
   their regions, in order and without overlap.
   */
  lemma RegionsAcceptedIff(r: Bodies.Regions)
    ensures Bodies.CheckRegions(r).Ok? <==>
            && InlineObjects.UnpackBlocks(r.inlineObjects).Ok? && InlineObjects.UnpackReferences(r.references).Ok?
            && TypedFrames.UnpackDescriptors(r.typedDescriptors).Ok?
            && ExtensionFrames.UnpackDescriptors(r.extensionDescriptors).Ok?
            && InOrder(PayloadSpans.SpansOf(TypedFrames.UnpackDescriptors(r.typedDescriptors).value), |r.typedPayloads|)
            && InOrder(PayloadSpans.SpansOf(ExtensionFrames.UnpackDescriptors(r.extensionDescriptors).value),
                       |r.extensionPayloads|)
  {
    hide InlineObjects.UnpackBlocks, InlineObjects.UnpackReferences, TypedFrames.UnpackDescriptors,
      ExtensionFrames.UnpackDescriptors, PayloadSpans.ValidateOffsets, PayloadSpans.SpansOf;
    if TypedFrames.UnpackDescriptors(r.typedDescriptors).Ok? {
      PayloadSpans.OffsetsDisjoint(PayloadSpans.SpansOf(TypedFrames.UnpackDescriptors(r.typedDescriptors).value),
                                   |r.typedPayloads|);
    }
    if ExtensionFrames.UnpackDescriptors(r.extensionDescriptors).Ok? {
      PayloadSpans.OffsetsDisjoint(
        PayloadSpans.SpansOf(ExtensionFrames.UnpackDescriptors(r.extensionDescriptors).value), |r.extensionPayloads|);
    }
  }

  /** Every span ends within the region and before the next one begins. */
  ghost predicate InOrder(spans: seq<PayloadSpans.Span>, size: nat) {
    && (forall i :: 0 <= i < |spans| ==> spans[i].offset + spans[i].length <= size)
    && (forall i, j :: 0 <= i < j < |spans| ==> spans[i].offset + spans[i].length <= spans[j].offset)
  }

  /** Which bytes are a recovery ticket, and what they say. */
  lemma TicketAt(s: bytes)
    requires |s| >= 28
    ensures RecoveryTicket.FromBytes(s).Ok? <==>
            && DecodeLe(s[0..4]) == 0x4B54524E && DecodeLe(s[4..6]) == 1 && DecodeLe(s[6..8]) <= 1
            && DecodeLe(s[8..12]) != 0 && |s| == 28 + DecodeLe(s[12..16]) && |s| > 28
            && (DecodeLe(s[6..8]) == 1 <==> DecodeLe(s[20..28]) != 0)
    ensures RecoveryTicket.FromBytes(s).Ok? ==>
              var t := RecoveryTicket.FromBytes(s).value;
              && t.session == DecodeLe(s[8..12]) && t.token == s[28..] && t.window == DecodeLe(s[16..20])
              && t.resumeFrom == if DecodeLe(s[6..8]) == 1 then Some(DecodeLe(s[20..28])) else None
  {
    var head := s[..28];
    TicketFields(head);
    Capacities();
    assert head[0..4] == s[0..4] && head[4..6] == s[4..6] && head[6..8] == s[6..8] && head[8..12] == s[8..12];
    assert head[12..16] == s[12..16] && head[16..20] == s[16..20] && head[20..28] == s[20..28];
    assert DecodeLe(s[8..12]) < Capacity(4) && DecodeLe(s[12..16]) < Capacity(4);
    assert DecodeLe(s[16..20]) < Capacity(4) && DecodeLe(s[20..28]) < Capacity(8);
    hide DecodeLe, UnpackRecord, Size, Capacity;
  }

  /** A packet is its header, its metadata and its body, of the lengths the header states. */
  lemma PacketAt(s: bytes)
    ensures Packets.UnpackPacket(s).Ok? <==>
            && |s| >= 40 && Header.UnpackHeader(s[..40]).Ok?
            && |s| == 40 + DecodeLe(s[12..16]) + DecodeLe(s[16..20])
    ensures Packets.UnpackPacket(s).Ok? ==>
              var p, bodyStart := Packets.UnpackPacket(s).value, 40 + DecodeLe(s[12..16]);
              && Header.UnpackHeader(s[..40]) == Ok(p.header)
              && p.metadata == s[40..bodyStart] && p.body == s[bodyStart..]
  {
    hide DecodeLe, Header.UnpackHeader;
    if |s| >= 40 {
      var head := s[..40];
      HeaderAt(head);
      assert head[12..16] == s[12..16] && head[16..20] == s[16..20];
    }
  }

  /** An application frame is a packet without its lengths; one cut short, refused or too long is named as such. */
  lemma FrameAt(s: bytes)
    ensures var r := WebSocket.DecodeFrame(s);
            && (|s| < 40 <==> r == Err(WebSocket.IncompleteFrame))
            && (|s| >= 40 && Header.UnpackHeader(s[..40]).Err? <==> r == Err(WebSocket.MalformedHeader))
            && (r.Ok? <==> |s| >= 40 && Header.UnpackHeader(s[..40]).Ok?
                           && |s| == 40 + DecodeLe(s[12..16]) + DecodeLe(s[16..20]))
    ensures WebSocket.DecodeFrame(s).Ok? ==>
              var f, bodyStart := WebSocket.DecodeFrame(s).value, 40 + DecodeLe(s[12..16]);
              var h := f.header;
              && h.versionMajor == s[4] && h.wireFormat == s[5] && h.messageType == s[6]
              && h.flags == DecodeLe(s[8..12]) && h.sessionId == DecodeLe(s[20..24])
              && h.frameId == DecodeLe(s[24..28]) && h.viewId == DecodeLe(s[28..30])
              && h.routeId == DecodeLe(s[30..32]) && h.traceId == DecodeLe(s[32..40])
              && f.metadata == s[40..bodyStart] && f.body == s[bodyStart..]
  {
    hide DecodeLe, Header.UnpackHeader;
    if |s| >= 40 {
      var head := s[..40];
      HeaderAt(head);
      assert head[12..16] == s[12..16] && head[16..20] == s[16..20] && head[8..12] == s[8..12];
      assert head[20..24] == s[20..24] && head[24..28] == s[24..28] && head[28..30] == s[28..30];
      assert head[30..32] == s[30..32] && head[32..40] == s[32..40];
    }
  }

  // Tile indexes

  lemma DenseAt(s: bytes, tileCount: int, tileBase: int)
    ensures TileIndex.UnpackTileIndex(s, TileIndex.DenseRange, tileCount, tileBase).Ok? <==> tileCount >= 0 && s == []
    ensures tileCount >= 0 && s == [] ==>
              var ids := TileIndex.UnpackTileIndex(s, TileIndex.DenseRange, tileCount, tileBase).value;
              |ids| == tileCount && forall i :: 0 <= i < tileCount ==> ids[i] == tileBase + i
  {
  }

  /** Raw ids are the two-byte numbers of the payload. */
  lemma RawAt(s: bytes, tileCount: int, tileBase: int)
    ensures TileIndex.UnpackTileIndex(s, TileIndex.RawU16, tileCount, tileBase).Ok? <==> |s| == 2 * tileCount
    ensures |s| == 2 * tileCount ==>
              var ids := TileIndex.UnpackTileIndex(s, TileIndex.RawU16, tileCount, tileBase).value;
              |ids| == tileCount && forall i :: 0 <= i < tileCount ==> ids[i] == DecodeLe(s[2 * i..2 * i + 2])
  {
    hide DecodeAll, DecodeLe;
    if |s| == 2 * tileCount {
      forall i | 0 <= i < tileCount
        ensures DecodeAll(s, 2)[i] == DecodeLe(s[2 * i..2 * i + 2])
      {
        EntryAt(s, 2, i);
      }
    }
  }

  /** In the delta mode the two-byte numbers are the first id and the distances from each id to the next. */
  lemma DeltasAt(s: bytes, tileCount: int, tileBase: int)
    ensures TileIndex.UnpackTileIndex(s, TileIndex.DeltaU16, tileCount, tileBase).Ok? <==> |s| == 2 * tileCount
    ensures |s| == 2 * tileCount ==>
              var ids := TileIndex.UnpackTileIndex(s, TileIndex.DeltaU16, tileCount, tileBase).value;
              && |ids| == tileCount
              && (tileCount > 0 ==> ids[0] == DecodeLe(s[0..2]))
              && forall i :: 0 < i < tileCount ==> ids[i] == ids[i - 1] + DecodeLe(s[2 * i..2 * i + 2])
  {
    hide DecodeAll, DecodeLe, TileIndex.Sums;
    if |s| == 2 * tileCount {
      DeltaIds(s, TileIndex.UnpackTileIndex(s, TileIndex.DeltaU16, tileCount, tileBase).value);
    }
  }

  lemma DeltaIds(s: bytes, ids: seq<int>)
    requires WholeEntries(|s|, 2) && ids == TileIndex.Sums(DecodeAll(s, 2), 0)
    ensures 2 * |ids| == |s|
    ensures ids != [] ==> ids[0] == DecodeLe(s[0..2])
    ensures forall i :: 0 < i < |ids| ==> ids[i] == ids[i - 1] + DecodeLe(s[2 * i..2 * i + 2])
  {
    hide DecodeAll, DecodeLe, TileIndex.Sums;
    TileIndex.SumsGrow(DecodeAll(s, 2), 0);
    if ids != [] {
      DeltaId(s, 0);
    }
    forall i | 0 < i < |ids|
      ensures ids[i] == ids[i - 1] + DecodeLe(s[2 * i..2 * i + 2])
    {
      DeltaId(s, i);
    }
  }

  lemma DeltaId(s: bytes, i: nat)
    requires WholeEntries(|s|, 2) && 2 * i < |s|
    ensures var ids := TileIndex.Sums(DecodeAll(s, 2), 0);
            && |ids| == |DecodeAll(s, 2)| == |s| / 2
            && ids[i] == (if i == 0 then 0 else ids[i - 1]) + DecodeLe(s[2 * i..2 * i + 2])
  {
    hide DecodeAll, DecodeLe, TileIndex.Sums;
    EntryAt(s, 2, i);
    StepAt(DecodeAll(s, 2), 0, i);
  }

  lemma {:induction false} StepAt(values: seq<nat>, previous: nat, i: nat)
    requires i < |values|
    ensures var sums := TileIndex.Sums(values, previous);
            |sums| == |values| && sums[i] == (if i == 0 then previous else sums[i - 1]) + values[i]
  {
    TileIndex.SumsGrow(values, previous);
    if i > 0 {
      StepAt(values[1..], previous + values[0], i - 1);
    }
  }

  /** In the bitset mode id `x` is digit `x % 8`, lowest first, of byte `x / 8`; ids come in ascending order. */
  lemma BitsetAt(s: bytes, tileCount: int, tileBase: int)
    requires TileIndex.UnpackTileIndex(s, TileIndex.Bitset, tileCount, tileBase).Ok?
    ensures var ids := TileIndex.UnpackTileIndex(s, TileIndex.Bitset, tileCount, tileBase).value;
            && |ids| == tileCount
            && (forall i, j :: 0 <= i < j < |ids| ==> ids[i] < ids[j])
            && forall x :: x in ids <==> 0 <= x < 8 * |s| && (s[x / 8] as nat / Pow2(x % 8)) % 2 == 1
  {
    hide TileIndex.SetBits;
    TileIndex.SetBitsExact(s, 0);
    var ids: seq<int> := TileIndex.SetBits(s, 0);
    forall x
      ensures x in ids <==> 0 <= x < 8 * |s| && (s[x / 8] as nat / Pow2(x % 8)) % 2 == 1
    {
      if 0 <= x < 8 * |s| {
        BitIsDigit(s[x / 8], x % 8);
      }
    }
  }
}
