/**
 Bytes, little-endian integers and fixed-width records: the part of Python's
 `struct` that the protocol uses (formats that start with `<`, so no padding).
 */
module Wire {

  type byte = b: int | 0 <= b < 256

  type bytes = seq<byte>

  /** The number of values of two and of four bytes. */
  const U16: nat := 0x1_0000
  const U32: nat := 0x1_0000_0000

  /** Why a codec refuses its input. */
  datatype Fault =
    | BadLength
    | BadMagic
    | BadEnum
    | BadReserved
    | OutOfRange
    | BadPadding
    | BadOrder
    | BadCount
    | BadFlags
    | BadOffset
    | BadKind
    | Duplicate
    | Missing
    | Unexpected

  /** The number of values a field of `width` bytes can hold. */
  function Capacity(width: nat): (p: nat)
    ensures p >= 1
  {
    if width == 0 then 1 else 256 * Capacity(width - 1)
  }

  function EncodeLe(value: nat, width: nat): (s: bytes)
    ensures |s| == width
  {
    if width == 0 then [] else [value % 256] + EncodeLe(value / 256, width - 1)
  }

  function DecodeLe(s: bytes): (value: nat)
    ensures value < Capacity(|s|)
  {
    if s == [] then 0 else s[0] + 256 * DecodeLe(s[1..])
  }

  lemma {:induction false} DecodeEncodeLe(value: nat, width: nat)
    requires value < Capacity(width)
    ensures DecodeLe(EncodeLe(value, width)) == value
  {
    if width == 0 {
    } else {
      DecodeEncodeLe(value / 256, width - 1);
      assert EncodeLe(value, width)[1..] == EncodeLe(value / 256, width - 1);
    }
  }

  lemma {:induction false} EncodeDecodeLe(s: bytes)
    ensures EncodeLe(DecodeLe(s), |s|) == s
  {
    if s == [] {
    } else {
      EncodeDecodeLe(s[1..]);
      var tail := DecodeLe(s[1..]);
      assert DecodeLe(s) % 256 == s[0] && DecodeLe(s) / 256 == tail;
      assert s == [s[0]] + s[1..];
    }
  }

  /** The capacities of the field widths in use, as numbers. */
  lemma Capacities()
    ensures Capacity(1) == 0x100
    ensures Capacity(2) == 0x1_0000
    ensures Capacity(4) == 0x1_0000_0000
    ensures Capacity(8) == 0x1_0000_0000_0000_0000
  {
    assert Capacity(2) == 256 * Capacity(1);
    assert Capacity(3) == 256 * Capacity(2);
    assert Capacity(4) == 256 * Capacity(3);
    assert Capacity(5) == 256 * Capacity(4);
    assert Capacity(6) == 256 * Capacity(5);
    assert Capacity(7) == 256 * Capacity(6);
    assert Capacity(8) == 256 * Capacity(7);
  }

  /** The length of a record whose fields have the given widths, first field first. */
  function Size(layout: seq<nat>): nat {
    if layout == [] then 0 else layout[0] + Size(layout[1..])
  }

  lemma {:induction false} SizeConcat(a: seq<nat>, b: seq<nat>)
    ensures Size(a + b) == Size(a) + Size(b)
  {
    if a == [] {
      assert a + b == b;
    } else {
      SizeConcat(a[1..], b);
      assert (a + b)[1..] == a[1..] + b;
    }
  }

  /** The values match the layout and each fits its field. */
  predicate Fits(values: seq<nat>, layout: seq<nat>) {
    |values| == |layout| && forall i :: 0 <= i < |values| ==> values[i] < Capacity(layout[i])
  }

  function PackRecord(values: seq<nat>, layout: seq<nat>): (s: bytes)
    requires Fits(values, layout)
    ensures |s| == Size(layout)
  {
    if layout == [] then [] else EncodeLe(values[0], layout[0]) + PackRecord(values[1..], layout[1..])
  }

  function UnpackRecord(s: bytes, layout: seq<nat>): (values: seq<nat>)
    requires |s| == Size(layout)
    ensures Fits(values, layout)
  {
    if layout == [] then []
    else [DecodeLe(s[..layout[0]])] + UnpackRecord(s[layout[0]..], layout[1..])
  }

  lemma {:induction false} UnpackPackRecord(values: seq<nat>, layout: seq<nat>)
    requires Fits(values, layout)
    ensures UnpackRecord(PackRecord(values, layout), layout) == values
  {
    if layout != [] {
      var s := PackRecord(values, layout);
      var w := layout[0];
      assert s[..w] == EncodeLe(values[0], w);
      assert s[w..] == PackRecord(values[1..], layout[1..]);
      DecodeEncodeLe(values[0], w);
      UnpackPackRecord(values[1..], layout[1..]);
    }
  }

  lemma {:induction false} PackUnpackRecord(s: bytes, layout: seq<nat>)
    requires |s| == Size(layout)
    ensures PackRecord(UnpackRecord(s, layout), layout) == s
  {
    if layout != [] {
      var w := layout[0];
      EncodeDecodeLe(s[..w]);
      PackUnpackRecord(s[w..], layout[1..]);
      var values := UnpackRecord(s, layout);
      assert values[1..] == UnpackRecord(s[w..], layout[1..]);
      assert s == s[..w] + s[w..];
    }
  }

  /** Where a field of a record starts. */
  function At(layout: seq<nat>, i: nat): (at: nat)
    requires i <= |layout|
  {
    if i == 0 then 0 else At(layout, i - 1) + layout[i - 1]
  }

  lemma {:induction false} AtRest(layout: seq<nat>, i: nat)
    requires 0 < i <= |layout|
    ensures At(layout, i) == layout[0] + At(layout[1..], i - 1)
  {
    if i > 1 {
      AtRest(layout, i - 1);
    }
  }

  lemma {:induction false} AtWithin(layout: seq<nat>, i: nat)
    requires i < |layout|
    ensures At(layout, i) + layout[i] <= Size(layout)
  {
    if i > 0 {
      AtRest(layout, i);
      AtWithin(layout[1..], i - 1);
    }
  }

  /** Field `i` of a record is the number in the bytes from where the field starts. */
  lemma {:induction false} FieldAt(s: bytes, layout: seq<nat>, i: nat)
    requires |s| == Size(layout) && i < |layout|
    ensures At(layout, i) + layout[i] <= |s|
    ensures UnpackRecord(s, layout)[i] == DecodeLe(s[At(layout, i)..At(layout, i) + layout[i]])
  {
    hide DecodeLe, Capacity, At, Fits;
    AtWithin(layout, i);
    if i == 0 {
      AtStart(layout);
      assert s[0..layout[0]] == s[..layout[0]];
    } else {
      var w := layout[0];
      AtRest(layout, i);
      FieldAt(s[w..], layout[1..], i - 1);
      SliceAfter(s, w, At(layout[1..], i - 1), layout[i]);
    }
  }

  lemma AtStart(layout: seq<nat>)
    ensures At(layout, 0) == 0
  {
  }

  lemma SliceAfter(s: bytes, skip: nat, at: nat, width: nat)
    requires skip + at + width <= |s|
    ensures s[skip..][at..at + width] == s[skip + at..skip + at + width]
  {
  }

  /** The first byte weighs least. */
  lemma LittleEndian(s: bytes)
    ensures |s| == 1 ==> DecodeLe(s) == s[0]
    ensures |s| == 2 ==> DecodeLe(s) == s[0] as nat + 0x100 * s[1] as nat
    ensures |s| == 4 ==>
              DecodeLe(s) == s[0] as nat + 0x100 * s[1] as nat + 0x1_0000 * s[2] as nat + 0x100_0000 * s[3] as nat
    ensures |s| == 8 ==> DecodeLe(s) == DecodeLe(s[..4]) + 0x1_0000_0000 * DecodeLe(s[4..])
  {
    hide Capacity;
    if |s| == 2 || |s| == 4 {
      assert DecodeLe(s[1..]) == s[1] as nat + 0x100 * DecodeLe(s[2..]) by {
        assert s[1..][1..] == s[2..];
      }
    }
    if |s| == 4 {
      assert DecodeLe(s[2..]) == s[2] as nat + 0x100 * DecodeLe(s[3..]) by {
        assert s[2..][1..] == s[3..];
      }
    }
    if |s| == 8 {
      FourMore(s[..4], s[4..]);
      assert s == s[..4] + s[4..];
    }
  }

  lemma FourMore(low: bytes, high: bytes)
    requires |low| == 4
    ensures DecodeLe(low + high) == DecodeLe(low) + 0x1_0000_0000 * DecodeLe(high)
  {
    DecodeAppend(low, high);
    Capacities();
  }

  lemma {:induction false} DecodeAppend(low: bytes, high: bytes)
    ensures DecodeLe(low + high) == DecodeLe(low) + Capacity(|low|) * DecodeLe(high)
  {
    if low == [] {
      assert low + high == high;
    } else {
      DecodeAppend(low[1..], high);
      assert (low + high)[1..] == low[1..] + high;
      Scaled(Capacity(|low| - 1), DecodeLe(high));
    }
  }

  lemma Scaled(a: nat, b: nat)
    ensures 256 * (a * b) == (256 * a) * b
  {
  }

  /** The size of an array entry: `<H` or `<I`. */
  type EntryWidth = w: nat | w == 2 || w == 4 witness 2

  /** The number of whole entries in a size, and whether nothing is left over. */
  function EntryCount(size: nat, width: EntryWidth): nat {
    if width == 2 then size / 2 else size / 4
  }

  predicate WholeEntries(size: nat, width: EntryWidth) {
    if width == 2 then size % 2 == 0 else size % 4 == 0
  }

  predicate AllFit(values: seq<nat>, width: nat) {
    forall i :: 0 <= i < |values| ==> values[i] < Capacity(width)
  }

  /** Equal-width numbers one after the other. */
  function EncodeAll(values: seq<nat>, width: EntryWidth): (s: bytes)
    ensures WholeEntries(|s|, width) && EntryCount(|s|, width) == |values|
  {
    if values == [] then [] else EncodeLe(values[0], width) + EncodeAll(values[1..], width)
  }

  lemma FirstEntry(size: nat, width: EntryWidth)
    requires WholeEntries(size, width)
    ensures EntryCount(0, width) == 0
    ensures size > 0 ==> size >= width && WholeEntries(size - width, width)
                         && EntryCount(size, width) == EntryCount(size - width, width) + 1
  {
  }

  function DecodeAll(s: bytes, width: EntryWidth): (values: seq<nat>)
    requires WholeEntries(|s|, width)
    ensures |values| == EntryCount(|s|, width) && AllFit(values, width)
    decreases |s|
  {
    hide WholeEntries, EntryCount, DecodeLe;
    FirstEntry(|s|, width);
    if s == [] then [] else [DecodeLe(s[..width])] + DecodeAll(s[width..], width)
  }

  lemma {:induction false} DecodeEncodeAll(values: seq<nat>, width: EntryWidth)
    requires AllFit(values, width)
    ensures DecodeAll(EncodeAll(values, width), width) == values
  {
    if values != [] {
      DecodeEncodeAll(values[1..], width);
      DecodeEncodeLe(values[0], width);
      var s := EncodeAll(values, width);
      assert s[..width] == EncodeLe(values[0], width);
      assert s[width..] == EncodeAll(values[1..], width);
    }
  }

  lemma EncodeAllFirst(first: nat, rest: seq<nat>, width: EntryWidth)
    ensures EncodeAll([first] + rest, width) == EncodeLe(first, width) + EncodeAll(rest, width)
  {
    hide EncodeLe;
    assert ([first] + rest)[1..] == rest;
  }

  lemma {:induction false} EncodeDecodeAll(s: bytes, width: EntryWidth)
    requires WholeEntries(|s|, width)
    ensures EncodeAll(DecodeAll(s, width), width) == s
    decreases |s|
  {
    hide EncodeLe, DecodeLe, Capacity, EncodeAll, AllFit, WholeEntries, EntryCount;
    FirstEntry(|s|, width);
    if s == [] {
      EncodeNone(width);
    } else {
      var first, rest := s[..width], s[width..];
      EncodeDecodeAll(rest, width);
      EncodeDecodeLe(first);
      EncodeAllFirst(DecodeLe(first), DecodeAll(rest, width), width);
      assert s == first + rest;
    }
  }

  lemma EncodeNone(width: EntryWidth)
    ensures EncodeAll([], width) == []
  {
  }

  /** Entry `i` of a table is the number in bytes `i * width` on. */
  lemma {:induction false} EntryAt(s: bytes, width: EntryWidth, i: nat)
    requires WholeEntries(|s|, width) && i < EntryCount(|s|, width)
    ensures width * i + width <= |s|
    ensures DecodeAll(s, width)[i] == DecodeLe(s[width * i..width * i + width])
    decreases i
  {
    hide WholeEntries, EntryCount, DecodeLe;
    FirstEntry(|s|, width);
    if i > 0 {
      var rest := s[width..];
      EntryAt(rest, width, i - 1);
      var at := width * (i - 1);
      assert width * i == width + at;
      SliceAfter(s, width, at, width);
    }
  }

  /** The concatenation of byte strings (Python's `b"".join`). */
  function Join(parts: seq<bytes>): (s: bytes) {
    if parts == [] then [] else parts[0] + Join(parts[1..])
  }

  lemma JoinFirst(first: bytes, rest: seq<bytes>)
    ensures Join([first] + rest) == first + Join(rest)
  {
    assert ([first] + rest)[1..] == rest;
  }

  lemma {:induction false} JoinAppend(xs: seq<bytes>, ys: seq<bytes>)
    ensures Join(xs + ys) == Join(xs) + Join(ys)
  {
    if xs == [] {
      assert xs + ys == ys;
    } else {
      var first, rest := xs[0], xs[1..];
      JoinAppend(rest, ys);
      assert xs == [first] + rest && xs + ys == [first] + (rest + ys);
      JoinOrder(first, rest, ys);
    }
  }

  lemma JoinOrder(first: bytes, rest: seq<bytes>, ys: seq<bytes>)
    requires Join(rest + ys) == Join(rest) + Join(ys)
    ensures Join([first] + (rest + ys)) == Join([first] + rest) + Join(ys)
  {
    hide Join;
    JoinFirst(first, rest);
    JoinFirst(first, rest + ys);
    assert first + (Join(rest) + Join(ys)) == first + Join(rest) + Join(ys);
  }

}
