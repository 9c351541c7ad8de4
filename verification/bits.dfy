/** Single bits of numbers and of byte strings. */
module Bits {
  import opened Wire

  function Pow2(n: nat): (p: nat)
    ensures p >= 1
  {
    if n == 0 then 1 else 2 * Pow2(n - 1)
  }

  /** `value & (1 << i)` is non-zero. */
  predicate Bit(value: nat, i: nat) {
    if i == 0 then value % 2 == 1 else Bit(value / 2, i - 1)
  }

  /** `value | (1 << i)`. */
  function WithBit(value: nat, i: nat): nat {
    if i == 0 then value - value % 2 + 1 else 2 * WithBit(value / 2, i - 1) + value % 2
  }

  /** The number with the given bits, lowest first. */
  function FromBits(bits: seq<bool>): (value: nat)
    ensures value < Pow2(|bits|)
  {
    if bits == [] then 0 else (if bits[0] then 1 else 0) + 2 * FromBits(bits[1..])
  }

  lemma {:induction false} BitOfWithBit(value: nat, i: nat, j: nat)
    ensures Bit(WithBit(value, i), j) <==> i == j || Bit(value, j)
  {
    if i != 0 {
      var w := WithBit(value / 2, i - 1);
      assert (2 * w + value % 2) / 2 == w && (2 * w + value % 2) % 2 == value % 2;
      if j != 0 {
        BitOfWithBit(value / 2, i - 1, j - 1);
      }
    } else if j != 0 {
      assert (value - value % 2 + 1) / 2 == value / 2;
    }
  }

  lemma {:induction false} WithBitBound(value: nat, i: nat, n: nat)
    requires i < n && value < Pow2(n)
    ensures WithBit(value, i) < Pow2(n)
  {
    var half := Pow2(n - 1);
    assert Pow2(n) == 2 * half && value / 2 < half;
    if i != 0 {
      WithBitBound(value / 2, i - 1, n - 1);
    }
  }

  lemma {:induction false} BitOfFromBits(bits: seq<bool>, i: nat)
    requires i < |bits|
    ensures Bit(FromBits(bits), i) <==> bits[i]
  {
    var tail := FromBits(bits[1..]);
    assert FromBits(bits) / 2 == tail;
    if i != 0 {
      BitOfFromBits(bits[1..], i - 1);
    }
  }

  /** Numbers below 2^n are equal when their n low bits are. */
  lemma {:induction false} BitsDetermine(a: nat, b: nat, n: nat)
    requires a < Pow2(n) && b < Pow2(n)
    requires forall i :: 0 <= i < n ==> (Bit(a, i) <==> Bit(b, i))
    ensures a == b
  {
    if n != 0 {
      assert Bit(a, 0) <==> Bit(b, 0);
      forall i | 0 <= i < n - 1
        ensures Bit(a / 2, i) <==> Bit(b / 2, i)
      {
        assert Bit(a, i + 1) <==> Bit(b, i + 1);
      }
      BitsDetermine(a / 2, b / 2, n - 1);
    }
  }

  lemma ByteRange()
    ensures Pow2(8) == 256
  {
    assert Pow2(2) == 4 && Pow2(4) == 16 && Pow2(6) == 64;
  }

  /** Bit `i` of a byte string: bit `i % 8` of its byte `i / 8`. */
  predicate BitAt(s: bytes, i: nat)
    requires i < 8 * |s|
  {
    Bit(s[i / 8], i % 8)
  }

  /** Byte strings are equal when they have the same bits. */
  lemma BitsDetermineBytes(s: bytes, t: bytes)
    requires |s| == |t|
    requires forall i :: 0 <= i < 8 * |s| ==> (BitAt(s, i) <==> BitAt(t, i))
    ensures s == t
  {
    ByteRange();
    forall j | 0 <= j < |s|
      ensures s[j] == t[j]
    {
      forall o | 0 <= o < 8
        ensures Bit(s[j], o) <==> Bit(t[j], o)
      {
        assert (8 * j + o) / 8 == j && (8 * j + o) % 8 == o;
        assert BitAt(s, 8 * j + o) <==> BitAt(t, 8 * j + o);
      }
      BitsDetermine(s[j], t[j], 8);
    }
  }

  /** The byte string with bit `i` set. */
  function SetBit(s: bytes, i: nat): (t: bytes)
    requires i < 8 * |s|
    ensures |t| == |s|
    ensures forall x :: 0 <= x < 8 * |s| ==> (BitAt(t, x) <==> x == i || BitAt(s, x))
  {
    ByteRange();
    WithBitBound(s[i / 8], i % 8, 8);
    var t := s[i / 8 := WithBit(s[i / 8], i % 8)];
    assert forall x :: 0 <= x < 8 * |s| ==> (BitAt(t, x) <==> x == i || BitAt(s, x)) by {
      forall x | 0 <= x < 8 * |s|
        ensures BitAt(t, x) <==> x == i || BitAt(s, x)
      {
        BitOfWithBit(s[i / 8], i % 8, x % 8);
      }
    }
    t
  }
}
