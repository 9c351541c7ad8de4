/** Eight-byte block alignment (src/nnrp/core/packet.py:160-175). */
module Alignment {
  import opened Wire

  function AlignUp(value: nat): (aligned: nat)
    ensures value <= aligned < value + 8 && aligned % 8 == 0
  {
    ((value + 7) / 8) * 8
  }

  function Zeros(count: nat): (s: bytes)
    ensures |s| == count && AllZero(s)
  {
    seq(count, _ => 0)
  }

  predicate AllZero(s: bytes) {
    forall i :: 0 <= i < |s| ==> s[i] == 0
  }

  /** The zeros between a length and its alignment. */
  function Padding(length: nat): (s: bytes)
    ensures |s| == AlignUp(length) - length && AllZero(s)
  {
    Zeros(AlignUp(length) - length)
  }

  lemma PaddingUnique(s: bytes, length: nat)
    requires AllZero(s) && |s| == AlignUp(length) - length
    ensures s == Padding(length)
  {
  }

  lemma AlignedAlready(length: nat)
    requires length % 8 == 0
    ensures AlignUp(length) == length && Padding(length) == []
  {
  }
}
