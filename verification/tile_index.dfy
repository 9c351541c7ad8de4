/** The four tile-index encodings (src/nnrp/core/packet.py:534-579 and 1517-1570). */
module TileIndex {
  import opened Outcomes
  import opened Wire
  import opened Bits

  datatype Mode = DenseRange | RawU16 | DeltaU16 | Bitset

  predicate InU16(ids: seq<int>) {
    forall i :: 0 <= i < |ids| ==> 0 <= ids[i] <= 0xFFFF
  }

  predicate Increasing(ids: seq<int>) {
    forall i, j :: 0 <= i < j < |ids| ==> ids[i] < ids[j]
  }

  function Range(start: int, count: nat): (ids: seq<int>)
    ensures |ids| == count && forall i :: 0 <= i < count ==> ids[i] == start + i
  {
    seq(count, i => start + i)
  }

  /** The ids a mode can express. */
  predicate Legal(ids: seq<int>, mode: Mode, tileBase: int) {
    && InU16(ids)
    && (mode.DenseRange? ==> ids == Range(tileBase, |ids|))
    && (mode.DeltaU16? || mode.Bitset? ==> Increasing(ids))
  }

  /** Increasing ids that do not start below `previous`. */
  predicate Chain(ids: seq<int>, previous: nat) {
    InU16(ids) && Increasing(ids) && (ids != [] ==> previous <= ids[0])
  }

  /** Each id minus the one before it; the first id minus `previous`. */
  function Deltas(ids: seq<int>, previous: nat): (values: seq<nat>)
    requires Chain(ids, previous)
    ensures |values| == |ids| && InU16(values)
  {
    if ids == [] then [] else [ids[0] - previous] + Deltas(ids[1..], ids[0])
  }

  /** Running sums: the inverse of `Deltas`. */
  function Sums(values: seq<nat>, previous: nat): seq<nat> {
    if values == [] then [] else [previous + values[0]] + Sums(values[1..], previous + values[0])
  }

  /** The byte whose bit `o` says whether `8 * j + o` is one of the ids. */
  function BitsetByte(ids: seq<int>, j: nat): (b: byte) {
    ByteRange();
    FromBits(seq(8, o requires 0 <= o < 8 => 8 * j + o in ids))
  }

  function BitsetBytes(ids: seq<int>): bytes
    requires InU16(ids)
  {
    if ids == [] then [] else seq(ids[|ids| - 1] / 8 + 1, j requires 0 <= j => BitsetByte(ids, j))
  }

  function PackTileIndex(ids: seq<int>, mode: Mode, tileBase: int): (r: Result<bytes, Fault>) {
    if !InU16(ids) then Err(OutOfRange)
    else if !Legal(ids, mode, tileBase) then Err(BadOrder)
    else
      match mode
      case DenseRange => Ok([])
      case RawU16 => Ok(EncodeAll(ids, 2))
      case DeltaU16 => Ok(EncodeAll(Deltas(ids, 0), 2))
      case Bitset => Ok(BitsetBytes(ids))
  }

  /** The positions of the set bits from bit `i` on, lowest first. */
  function SetBits(s: bytes, i: nat): seq<nat>
    requires i <= 8 * |s|
    decreases 8 * |s| - i
  {
    if i == 8 * |s| then [] else (if BitAt(s, i) then [i] else []) + SetBits(s, i + 1)
  }

  function UnpackTileIndex(payload: bytes, mode: Mode, tileCount: int, tileBase: int): (r: Result<seq<int>, Fault>) {
    if tileCount < 0 then Err(BadCount)
    else
      match mode
      case DenseRange => if |payload| != 0 then Err(BadLength) else Ok(Range(tileBase, tileCount))
      case RawU16 => if |payload| != tileCount * 2 then Err(BadLength) else Ok(DecodeAll(payload, 2))
      case DeltaU16 => if |payload| != tileCount * 2 then Err(BadLength) else Ok(Sums(DecodeAll(payload, 2), 0))
      case Bitset =>
        var ids := SetBits(payload, 0);
        if |ids| != tileCount then Err(BadCount) else Ok(ids)
  }

  lemma {:induction false} SumsOfDeltas(ids: seq<int>, previous: nat)
    requires Chain(ids, previous)
    ensures Sums(Deltas(ids, previous), previous) == ids
  {
    if ids != [] {
      SumsOfDeltas(ids[1..], ids[0]);
    }
  }

  lemma {:induction false} SumsIncreasing(values: seq<nat>, previous: nat)
    requires Increasing(Sums(values, previous)) && InU16(Sums(values, previous))
    ensures Chain(Sums(values, previous), previous)
    ensures Deltas(Sums(values, previous), previous) == values
  {
    if values != [] {
      assert Sums(values, previous)[1..] == Sums(values[1..], previous + values[0]);
      SumsIncreasing(values[1..], previous + values[0]);
    }
  }

  /** Set bits come out in increasing order and are exactly the positions of set bits. */
  lemma {:induction false} SetBitsExact(s: bytes, i: nat)
    requires i <= 8 * |s|
    ensures Increasing(SetBits(s, i))
    ensures forall x: int :: x in SetBits(s, i) <==> i <= x < 8 * |s| && BitAt(s, x)
    decreases 8 * |s| - i
  {
    hide BitAt;
    if i != 8 * |s| {
      SetBitsExact(s, i + 1);
      var tail: seq<int> := SetBits(s, i + 1);
      var head: seq<int> := if BitAt(s, i) then [i] else [];
      assert SetBits(s, i) == head + tail;
      forall k | 0 <= k < |tail|
        ensures i < tail[k]
      {
        assert tail[k] in tail;
      }
      forall x: int
        ensures x in SetBits(s, i) <==> i <= x < 8 * |s| && BitAt(s, x)
      {
        assert x in SetBits(s, i) <==> x in head || x in tail;
      }
    }
  }

  /** Increasing sequences with the same elements are equal. */
  lemma {:induction false} SameElements(a: seq<int>, b: seq<int>)
    requires Increasing(a) && Increasing(b)
    requires forall x :: x in a <==> x in b
    ensures a == b
  {
    assert a == [] || a[0] in a;
    assert b == [] || b[0] in b;
    if a != [] && b != [] {
      var i :| 0 <= i < |a| && a[i] == b[0];
      var j :| 0 <= j < |b| && b[j] == a[0];
      assert i == 0 && j == 0;
      forall x
        ensures x in a[1..] <==> x in b[1..]
      {
        assert x in a[1..] <==> x in a && x != a[0];
        assert x in b[1..] <==> x in b && x != b[0];
      }
      SameElements(a[1..], b[1..]);
    }
  }

  /** The bitset of some ids has exactly their bits set. */
  lemma BitsetBits(ids: seq<int>)
    requires InU16(ids) && Increasing(ids)
    ensures forall x: nat :: x < 8 * |BitsetBytes(ids)| ==> (BitAt(BitsetBytes(ids), x) <==> x in ids)
    ensures forall x :: x in ids ==> 0 <= x < 8 * |BitsetBytes(ids)|
  {
    var s := BitsetBytes(ids);
    forall x: nat | x < 8 * |s|
      ensures BitAt(s, x) <==> x in ids
    {
      var j, o := x / 8, x % 8;
      assert s[j] == BitsetByte(ids, j);
      ByteRange();
      BitOfFromBits(seq(8, p requires 0 <= p < 8 => 8 * j + p in ids), o);
      assert 8 * j + o == x;
    }
    forall x | x in ids
      ensures 0 <= x < 8 * |s|
    {
      var i :| 0 <= i < |ids| && ids[i] == x;
      assert x <= ids[|ids| - 1];
    }
  }

  /** Packing accepts exactly the legal ids, and unpacking returns them, in all four modes. */
  lemma TileIndexRoundTrip(ids: seq<int>, mode: Mode, tileBase: int)
    ensures PackTileIndex(ids, mode, tileBase).Ok? <==> Legal(ids, mode, tileBase)
    ensures Legal(ids, mode, tileBase) <==>
              && (forall i :: 0 <= i < |ids| ==> 0 <= ids[i] < 0x1_0000)
              && (mode.DenseRange? ==> forall i :: 0 <= i < |ids| ==> ids[i] == tileBase + i)
              && (mode.DeltaU16? || mode.Bitset? ==> forall i, j :: 0 <= i < j < |ids| ==> ids[i] < ids[j])
    ensures Legal(ids, mode, tileBase) ==>
              UnpackTileIndex(PackTileIndex(ids, mode, tileBase).value, mode, |ids|, tileBase) == Ok(ids)
  {
    if Legal(ids, mode, tileBase) {
      Capacities();
      match mode
      case DenseRange =>
      case RawU16 => DecodeEncodeAll(ids, 2);
      case DeltaU16 =>
        DecodeEncodeAll(Deltas(ids, 0), 2);
        SumsOfDeltas(ids, 0);
      case Bitset =>
        BitsetBits(ids);
        SetBitsExact(BitsetBytes(ids), 0);
        SameElements(SetBits(BitsetBytes(ids), 0), ids);
    }
  }

  /** The size of the block that packing makes. */
  function PackedSize(ids: seq<int>, mode: Mode): nat
    requires InU16(ids)
  {
    match mode
    case DenseRange => 0
    case RawU16 => 2 * |ids|
    case DeltaU16 => 2 * |ids|
    case Bitset => if ids == [] then 0 else ids[|ids| - 1] / 8 + 1
  }

  lemma PackedSizeAgrees(ids: seq<int>, mode: Mode, tileBase: int)
    requires Legal(ids, mode, tileBase)
    ensures PackTileIndex(ids, mode, tileBase).Ok?
    ensures |PackTileIndex(ids, mode, tileBase).value| == PackedSize(ids, mode)
  {
    hide EncodeAll, Deltas, Chain;
    IncreasingChain(ids);
  }

  lemma IncreasingChain(ids: seq<int>)
    ensures InU16(ids) && Increasing(ids) <==> Chain(ids, 0)
  {
  }

  /** The bytes up to the last non-zero one. */
  function StripZeros(s: bytes): (t: bytes)
    ensures |t| <= |s| && t == s[..|t|]
    ensures forall i :: |t| <= i < |s| ==> s[i] == 0
    ensures t != [] ==> t[|t| - 1] != 0
  {
    if s == [] || s[|s| - 1] != 0 then s else StripZeros(s[..|s| - 1])
  }

  lemma {:induction false} NonZeroHasBit(value: nat, n: nat) returns (i: nat)
    requires 0 < value < Pow2(n)
    ensures i < n && Bit(value, i)
  {
    if value % 2 == 1 {
      i := 0;
    } else {
      i := NonZeroHasBit(value / 2, n - 1);
      i := i + 1;
    }
  }

  lemma {:induction false} ZeroHasNoBit(i: nat)
    ensures !Bit(0, i)
  {
    if i != 0 {
      ZeroHasNoBit(i - 1);
    }
  }

  /**
   Every accepted bitset decodes to increasing ids; up to 8192 bytes the ids
   fit u16 and encoding them gives the bitset back without its trailing zeros.
   */
  lemma BitsetCanonical(payload: bytes, tileCount: int, tileBase: int)
    requires UnpackTileIndex(payload, Bitset, tileCount, tileBase).Ok?
    ensures Increasing(UnpackTileIndex(payload, Bitset, tileCount, tileBase).value)
    ensures |payload| <= 8192 ==>
              PackTileIndex(UnpackTileIndex(payload, Bitset, tileCount, tileBase).value, Bitset, tileBase)
              == Ok(StripZeros(payload))
  {
    var ids: seq<int> := SetBits(payload, 0);
    SetBitsExact(payload, 0);
    if |payload| <= 8192 {
      forall i | 0 <= i < |ids|
        ensures 0 <= ids[i] <= 0xFFFF
      {
        assert ids[i] in ids;
      }
      Restored(payload, ids);
    }
  }

  lemma Restored(payload: bytes, ids: seq<int>)
    requires ids == SetBits(payload, 0) && InU16(ids) && Increasing(ids)
    ensures BitsetBytes(ids) == StripZeros(payload)
  {
    hide SetBits, BitsetBytes;
    SetBitsExact(payload, 0);
    StrippedLength(payload, ids);
    var t, b := StripZeros(payload), BitsetBytes(ids);
    BitsetBits(ids);
    forall x | 0 <= x < 8 * |t|
      ensures BitAt(t, x) <==> BitAt(b, x)
    {
      assert BitAt(t, x) <==> BitAt(payload, x);
    }
    BitsDetermineBytes(t, b);
  }

  lemma StrippedLength(payload: bytes, ids: seq<int>)
    requires ids == SetBits(payload, 0) && InU16(ids) && Increasing(ids)
    ensures |StripZeros(payload)| == |BitsetBytes(ids)|
  {
    SetBitsExact(payload, 0);
    var t := StripZeros(payload);
    if t != [] {
      ByteRange();
      var o := NonZeroHasBit(t[|t| - 1], 8);
      var top := 8 * (|t| - 1) + o;
      assert top / 8 == |t| - 1 && top % 8 == o;
      assert BitAt(payload, top);
      assert top in ids;
    }
    if ids != [] {
      var last := ids[|ids| - 1];
      assert last in ids;
      assert BitAt(payload, last);
      ZeroHasNoBit(last % 8);
      assert last / 8 < |t|;
      if t != [] {
        var i :| 0 <= i < |ids| && ids[i] / 8 == |t| - 1;
        assert ids[i] <= last;
      }
    }
  }

  /** The sum of all deltas. */
  function Total(values: seq<nat>): nat {
    if values == [] then 0 else values[0] + Total(values[1..])
  }

  /** Running sums grow, and the last of them is the total. */
  lemma {:induction false} SumsGrow(values: seq<nat>, previous: nat)
    ensures |Sums(values, previous)| == |values|
    ensures forall i :: 0 <= i < |values| ==> previous <= Sums(values, previous)[i] <= previous + Total(values)
    ensures values != [] ==> Sums(values, previous)[|values| - 1] == previous + Total(values)
  {
    if values != [] {
      var rest := Sums(values[1..], previous + values[0]);
      SumsGrow(values[1..], previous + values[0]);
      assert Sums(values, previous) == [previous + values[0]] + rest;
      assert |values| > 1 ==> Sums(values, previous)[|values| - 1] == rest[|values| - 2];
      forall i | 0 <= i < |values|
        ensures previous <= Sums(values, previous)[i] <= previous + Total(values)
      {
        assert i > 0 ==> Sums(values, previous)[i] == rest[i - 1];
      }
    }
  }

  /** Every delta but the first is positive. */
  predicate LaterPositive(values: seq<nat>) {
    forall i :: 1 <= i < |values| ==> values[i] > 0
  }

  lemma {:induction false} SumsIncreasingIff(values: seq<nat>, previous: nat)
    ensures Increasing(Sums(values, previous)) <==> LaterPositive(values)
  {
    if |values| > 1 {
      var first, later := previous + values[0], values[1..];
      var rest := Sums(later, first);
      SumsIncreasingIff(later, first);
      SumsGrow(later, first);
      assert Sums(values, previous) == [first] + rest;
      assert rest[0] == first + values[1];
      IncreasingCons(first, rest);
      assert LaterPositive(values) <==> values[1] > 0 && LaterPositive(later) by {
        assert forall i :: 1 <= i < |later| ==> later[i] == values[i + 1];
        assert forall i :: 2 <= i < |values| ==> values[i] == later[i - 1];
      }
    }
  }

  lemma IncreasingCons(first: int, rest: seq<int>)
    requires rest != []
    ensures Increasing([first] + rest) <==> first < rest[0] && Increasing(rest)
  {
    var all := [first] + rest;
    assert forall i :: 0 <= i < |rest| ==> rest[i] == all[i + 1];
    if first < rest[0] && Increasing(rest) {
      forall i, j | 0 <= i < j < |all|
        ensures all[i] < all[j]
      {
        assert all[j] == rest[j - 1];
        assert i > 0 ==> all[i] == rest[i - 1];
        assert j > 1 ==> rest[0] < rest[j - 1];
      }
    }
    if Increasing(all) {
      assert all[0] < all[1];
      forall i, j | 0 <= i < j < |rest|
        ensures rest[i] < rest[j]
      {
        assert all[i + 1] < all[j + 1];
      }
    }
  }

  /**
   An accepted delta payload decodes to increasing ids exactly when every delta
   but the first is positive, and to ids that can be encoded exactly when also
   the deltas add up to a u16.
   */
  lemma DeltaDecodesIff(payload: bytes, tileCount: int, tileBase: int)
    requires UnpackTileIndex(payload, DeltaU16, tileCount, tileBase).Ok?
    ensures WholeEntries(|payload|, 2)
    ensures var values, ids := DecodeAll(payload, 2), UnpackTileIndex(payload, DeltaU16, tileCount, tileBase).value;
            && (Increasing(ids) <==> LaterPositive(values))
            && (Legal(ids, DeltaU16, tileBase) <==> LaterPositive(values) && Total(values) <= 0xFFFF)
  {
    hide DecodeAll, Sums, Increasing, LaterPositive;
    SumsIncreasingIff(DecodeAll(payload, 2), 0);
    SumsInU16Iff(DecodeAll(payload, 2));
  }

  lemma SumsInU16Iff(values: seq<nat>)
    ensures InU16(Sums(values, 0)) <==> Total(values) <= 0xFFFF
  {
    hide Sums, Total;
    var ids := Sums(values, 0);
    SumsGrow(values, 0);
    if values == [] {
      NoTotal();
    } else {
      assert ids[|ids| - 1] == Total(values);
    }
  }

  lemma NoTotal()
    ensures Total([]) == 0
  {
  }

  /** The payloads an encoder writes, among those that are accepted. */
  predicate Canonical(payload: bytes, mode: Mode, tileCount: int, tileBase: int) {
    match mode
    case DenseRange => tileCount == 0 || (0 <= tileBase && tileBase + tileCount <= 0x1_0000)
    case RawU16 => true
    case DeltaU16 =>
      WholeEntries(|payload|, 2) && LaterPositive(DecodeAll(payload, 2)) && Total(DecodeAll(payload, 2)) <= 0xFFFF
    case Bitset => |payload| <= 8192 && (payload == [] || payload[|payload| - 1] != 0)
  }

  /** In every mode, decoding and encoding again gives the same bytes exactly for the canonical payloads. */
  lemma TileIndexReencode(payload: bytes, mode: Mode, tileCount: int, tileBase: int)
    requires UnpackTileIndex(payload, mode, tileCount, tileBase).Ok?
    ensures PackTileIndex(UnpackTileIndex(payload, mode, tileCount, tileBase).value, mode, tileBase) == Ok(payload)
            <==> Canonical(payload, mode, tileCount, tileBase)
  {
    match mode
    case DenseRange => DenseReencode(tileCount, tileBase);
    case RawU16 => RawReencode(payload);
    case DeltaU16 => DeltaReencode(payload, tileCount, tileBase);
    case Bitset => BitsetReencode(payload, tileBase);
  }

  lemma DenseReencode(tileCount: nat, tileBase: int)
    ensures PackTileIndex(Range(tileBase, tileCount), DenseRange, tileBase) == Ok([])
            <==> tileCount == 0 || (0 <= tileBase && tileBase + tileCount <= 0x1_0000)
  {
    var ids := Range(tileBase, tileCount);
    if tileCount > 0 && InU16(ids) {
      assert ids[0] == tileBase && ids[tileCount - 1] == tileBase + tileCount - 1;
    }
  }

  lemma RawReencode(payload: bytes)
    requires WholeEntries(|payload|, 2)
    ensures PackTileIndex(DecodeAll(payload, 2), RawU16, 0) == Ok(payload)
  {
    hide DecodeAll, EncodeAll, Capacity;
    Capacities();
    EncodeDecodeAll(payload, 2);
  }

  lemma DeltaReencode(payload: bytes, tileCount: int, tileBase: int)
    requires UnpackTileIndex(payload, DeltaU16, tileCount, tileBase).Ok?
    ensures PackTileIndex(UnpackTileIndex(payload, DeltaU16, tileCount, tileBase).value, DeltaU16, tileBase)
            == Ok(payload)
            <==> Canonical(payload, DeltaU16, tileCount, tileBase)
  {
    DeltaDecodesIff(payload, tileCount, tileBase);
    if Legal(Sums(DecodeAll(payload, 2), 0), DeltaU16, tileBase) {
      EncodeDecodeAll(payload, 2);
      SumsIncreasing(DecodeAll(payload, 2), 0);
    }
  }

  lemma StripZerosSame(s: bytes)
    ensures StripZeros(s) == s <==> s == [] || s[|s| - 1] != 0
  {
  }

  /** Bitsets of up to 8192 bytes hold u16 ids, and no others can be encoded. */
  lemma BitsetReencode(payload: bytes, tileBase: int)
    ensures PackTileIndex(SetBits(payload, 0), Bitset, tileBase) == Ok(payload)
            <==> Canonical(payload, Bitset, |SetBits(payload, 0)|, tileBase)
  {
    hide SetBits, BitsetByte, StripZeros, BitAt;
    var ids: seq<int> := SetBits(payload, 0);
    SetBitsExact(payload, 0);
    StripZerosSame(payload);
    if InU16(ids) {
      Restored(payload, ids);
      assert PackTileIndex(ids, Bitset, tileBase) == Ok(StripZeros(payload));
      assert ids != [] ==> |BitsetBytes(ids)| == ids[|ids| - 1] / 8 + 1 <= 8192;
    } else {
      var i :| 0 <= i < |ids| && !(0 <= ids[i] <= 0xFFFF);
      assert ids[i] in ids;
    }
  }

  /** The refusing side has inputs: a zero delta is accepted although no encoder writes it. */
  lemma ZeroDeltaAccepted()
    ensures UnpackTileIndex([5, 0, 0, 0], DeltaU16, 2, 0) == Ok([5, 5])
    ensures PackTileIndex([5, 5], DeltaU16, 0).Err?
  {
    var payload: bytes := [5, 0, 0, 0];
    assert EncodeLe(5, 2) == [5] + EncodeLe(0, 1) && EncodeLe(0, 2) == [0] + EncodeLe(0, 1);
    assert EncodeAll([5, 0], 2) == EncodeLe(5, 2) + EncodeAll([0], 2);
    assert EncodeAll([0], 2) == EncodeLe(0, 2) + EncodeAll([], 2);
    assert EncodeAll([5, 0], 2) == payload;
    Capacities();
    DecodeEncodeAll([5, 0], 2);
    assert [5, 0][1..] == [0];
    assert Sums([5, 0], 0) == [5] + Sums([0], 5);
    assert Sums([0], 5) == [5] + Sums([], 5);
    assert DecodeAll(payload, 2) == [5, 0];
    assert Sums(DecodeAll(payload, 2), 0) == [5, 5];
    var ids := [5, 5];
    assert !(ids[0] < ids[1]);
  }

  /** The encoder: checks the ids, then fills the payload in one pass. */
  method PackTileIndexBlock(ids: seq<int>, mode: Mode, tileBase: int) returns (r: Result<bytes, Fault>)
    ensures r == PackTileIndex(ids, mode, tileBase)
  {
    if exists i :: 0 <= i < |ids| && ids[i] < 0 {
      return Err(OutOfRange);
    }
    if exists i :: 0 <= i < |ids| && ids[i] > 0xFFFF {
      return Err(OutOfRange);
    }
    if mode == DenseRange {
      if ids != Range(tileBase, |ids|) {
        return Err(BadOrder);
      }
      return Ok([]);
    }
    if mode == RawU16 {
      return Ok(EncodeAll(ids, 2));
    }
    var ordered := CheckIncreasing(ids);
    if !ordered {
      return Err(BadOrder);
    }
    if mode == DeltaU16 {
      var payload := PackDeltas(ids);
      return Ok(payload);
    }
    if ids == [] {
      return Ok([]);
    }
    var payload := PackBits(ids);
    return Ok(payload);
  }

  method CheckIncreasing(ids: seq<int>) returns (ok: bool)
    ensures ok <==> Increasing(ids)
  {
    var i := 0;
    while i + 1 < |ids|
      invariant 0 <= i && (i < |ids| || ids == [])
      invariant forall a, b :: 0 <= a < b <= i && b < |ids| ==> ids[a] < ids[b]
    {
      if ids[i + 1] <= ids[i] {
        return false;
      }
      i := i + 1;
    }
    return true;
  }

  /** The first id of a chain and what its delta adds to the encoding. */
  lemma DeltaStep(ids: seq<int>, previous: nat)
    requires Chain(ids, previous) && ids != []
    ensures ids[0] >= previous && Chain(ids[1..], ids[0])
    ensures EncodeAll(Deltas(ids, previous), 2) ==
            EncodeLe(ids[0] - previous, 2) + EncodeAll(Deltas(ids[1..], ids[0]), 2)
  {
    hide EncodeLe;
    assert Chain(ids[1..], ids[0]);
    hide Chain;
    EncodeAllFirst(ids[0] - previous, Deltas(ids[1..], ids[0]), 2);
    hide EncodeAll;
    assert Deltas(ids, previous) == [ids[0] - previous] + Deltas(ids[1..], ids[0]);
  }

  method PackDeltas(ids: seq<int>) returns (payload: bytes)
    requires InU16(ids) && Increasing(ids)
    ensures payload == EncodeAll(Deltas(ids, 0), 2)
  {
    hide EncodeLe, EncodeAll, Deltas, Chain;
    payload := [];
    var previous := 0;
    var i := 0;
    assert ids[0..] == ids;
    IncreasingChain(ids);
    while i < |ids|
      invariant 0 <= i <= |ids|
      invariant previous >= 0 && Chain(ids[i..], previous)
      invariant payload + EncodeAll(Deltas(ids[i..], previous), 2) == EncodeAll(Deltas(ids, 0), 2)
    {
      DeltaStep(ids[i..], previous);
      assert ids[i..][1..] == ids[i + 1..];
      payload := payload + EncodeLe(ids[i] - previous, 2);
      previous := ids[i];
      i := i + 1;
    }
    NoDeltas(previous);
    assert ids[i..] == [];
    assert payload + [] == payload;
  }

  lemma NoDeltas(previous: nat)
    ensures Chain([], previous) && EncodeAll(Deltas([], previous), 2) == []
  {
  }

  /** The set bits of a payload are the given ids. */
  predicate HasBits(payload: bytes, ids: seq<int>) {
    forall x :: 0 <= x < 8 * |payload| ==> (BitAt(payload, x) <==> x in ids)
  }

  lemma HasNextBit(payload: bytes, ids: seq<int>, i: nat)
    requires i < |ids| && 0 <= ids[i] < 8 * |payload| && HasBits(payload, ids[..i])
    ensures HasBits(SetBit(payload, ids[i]), ids[..i + 1])
  {
    hide BitAt;
    assert ids[..i + 1] == ids[..i] + [ids[i]];
    assert forall x :: x in ids[..i + 1] <==> x in ids[..i] || x == ids[i];
  }

  lemma SameBits(payload: bytes, ids: seq<int>)
    requires InU16(ids) && Increasing(ids) && |payload| == |BitsetBytes(ids)| && HasBits(payload, ids)
    ensures payload == BitsetBytes(ids)
  {
    hide BitAt, BitsetBytes;
    BitsetBits(ids);
    BitsDetermineBytes(payload, BitsetBytes(ids));
  }

  lemma ZeroBytes(payload: bytes)
    requires forall j :: 0 <= j < |payload| ==> payload[j] == 0
    ensures forall x :: 0 <= x < 8 * |payload| ==> !BitAt(payload, x)
  {
    forall x | 0 <= x < 8 * |payload|
      ensures !BitAt(payload, x)
    {
      ZeroHasNoBit(x % 8);
    }
  }

  /** Sets one bit per id in a zeroed payload. */
  method PackBits(ids: seq<int>) returns (payload: bytes)
    requires InU16(ids) && Increasing(ids) && ids != []
    ensures payload == BitsetBytes(ids)
  {
    payload := seq(ids[|ids| - 1] / 8 + 1, _ => 0);
    BitsetBits(ids);
    ZeroBytes(payload);
    assert |payload| == |BitsetBytes(ids)|;
    assert HasBits(payload, ids[..0]);
    hide HasBits, BitsetBytes;
    var i := 0;
    while i < |ids|
      invariant 0 <= i <= |ids|
      invariant |payload| == |BitsetBytes(ids)| && HasBits(payload, ids[..i])
    {
      assert ids[i] in ids;
      HasNextBit(payload, ids, i);
      payload := SetBit(payload, ids[i]);
      i := i + 1;
    }
    assert ids[..i] == ids;
    SameBits(payload, ids);
  }

  /** The loop of the delta mode. */
  method AddDeltas(values: seq<nat>) returns (ids: seq<nat>)
    ensures ids == Sums(values, 0)
  {
    ids := [];
    var previous: nat := 0;
    var i := 0;
    assert values[0..] == values && [] + Sums(values, 0) == Sums(values, 0);
    while i < |values|
      invariant 0 <= i <= |values|
      invariant ids + Sums(values[i..], previous) == Sums(values, 0)
    {
      SumsFirst(values, i, previous, ids);
      previous := previous + values[i];
      ids := ids + [previous];
      i := i + 1;
    }
    assert values[i..] == [] && ids + [] == ids;
  }

  lemma SumsFirst(values: seq<nat>, i: nat, previous: nat, ids: seq<nat>)
    requires i < |values|
    ensures ids + Sums(values[i..], previous)
            == ids + [previous + values[i]] + Sums(values[i + 1..], previous + values[i])
  {
    assert values[i..][0] == values[i] && values[i..][1..] == values[i + 1..];
  }

  /** The decoder; only the delta mode accumulates. */
  method UnpackTileIndexBlock(payload: bytes, mode: Mode, tileCount: int, tileBase: int)
    returns (r: Result<seq<int>, Fault>)
    ensures r == UnpackTileIndex(payload, mode, tileCount, tileBase)
  {
    hide DecodeAll, SetBits, Sums;
    if tileCount < 0 {
      return Err(BadCount);
    }
    match mode {
      case DenseRange =>
        if |payload| != 0 {
          return Err(BadLength);
        }
        return Ok(Range(tileBase, tileCount));
      case RawU16 =>
        if |payload| != tileCount * 2 {
          return Err(BadLength);
        }
        return Ok(DecodeAll(payload, 2));
      case DeltaU16 =>
        if |payload| != tileCount * 2 {
          return Err(BadLength);
        }
        var ids := AddDeltas(DecodeAll(payload, 2));
        return Ok(ids);
      case Bitset =>
        var ids := SetBits(payload, 0);
        if |ids| != tileCount {
          return Err(BadCount);
        }
        return Ok(ids);
    }
  }
}
