/** Tables of fixed-size records: object references and both kinds of descriptors (src/nnrp/core/packet.py:678-695). */
module RecordTables {
  import opened Outcomes
  import opened Wire

  function PackAll<D>(ds: seq<D>, pack: D -> Result<bytes, Fault>): (r: Result<bytes, Fault>) {
    if ds == [] then Ok([])
    else
      var first :- pack(ds[0]);
      var rest :- PackAll(ds[1..], pack);
      Ok(first + rest)
  }

  function UnpackAll<D>(s: bytes, size: nat, unpack: bytes -> Result<D, Fault>): (r: Result<seq<D>, Fault>)
    requires size > 0
    decreases |s|
  {
    if s == [] then Ok([])
    else if |s| < size then Err(BadLength)
    else
      var first :- unpack(s[..size]);
      var rest :- UnpackAll(s[size..], size, unpack);
      Ok([first] + rest)
  }

  lemma Product(size: nat, count: nat)
    requires count > 0
    ensures size * count == size + size * (count - 1)
  {
  }

  lemma {:induction false} PackedAll<D>(ds: seq<D>, size: nat, pack: D -> Result<bytes, Fault>)
    requires forall d :: d in ds && pack(d).Ok? ==> |pack(d).value| == size
    ensures PackAll(ds, pack).Ok? ==> |PackAll(ds, pack).value| == size * |ds|
  {
    if ds != [] {
      PackedAll(ds[1..], size, pack);
      Product(size, |ds|);
      assert ds[0] in ds;
    }
  }

  lemma {:induction false} UnpackedAll<D>(s: bytes, size: nat, unpack: bytes -> Result<D, Fault>)
    requires size > 0
    ensures UnpackAll(s, size, unpack).Ok? ==> |s| == size * |UnpackAll(s, size, unpack).value|
    decreases |s|
  {
    if s != [] && UnpackAll(s, size, unpack).Ok? {
      UnpackedAll(s[size..], size, unpack);
      Product(size, |UnpackAll(s, size, unpack).value|);
    }
  }

  lemma FirstOfAll<D>(first: bytes, rest: bytes, size: nat, unpack: bytes -> Result<D, Fault>)
    requires size > 0 && |first| == size && unpack(first).Ok? && UnpackAll(rest, size, unpack).Ok?
    ensures UnpackAll(first + rest, size, unpack) == Ok([unpack(first).value] + UnpackAll(rest, size, unpack).value)
  {
    assert (first + rest)[..size] == first && (first + rest)[size..] == rest;
  }

  /** A table packs exactly when each of its records does, and is then read back record by record. */
  lemma {:induction false} AllRoundTrip<D>(
    ds: seq<D>, size: nat, pack: D -> Result<bytes, Fault>, unpack: bytes -> Result<D, Fault>)
    requires size > 0
    requires forall d :: d in ds && pack(d).Ok? ==> |pack(d).value| == size && unpack(pack(d).value) == Ok(d)
    ensures PackAll(ds, pack).Ok? <==> forall d :: d in ds ==> pack(d).Ok?
    ensures PackAll(ds, pack).Ok? ==>
              && |PackAll(ds, pack).value| == size * |ds|
              && UnpackAll(PackAll(ds, pack).value, size, unpack) == Ok(ds)
  {
    PackedAll(ds, size, pack);
    if ds != [] {
      var first, rest := ds[0], ds[1..];
      AllRoundTrip(rest, size, pack, unpack);
      assert ds == [first] + rest && first in ds;
      if PackAll(ds, pack).Ok? {
        FirstOfAll(pack(first).value, PackAll(rest, pack).value, size, unpack);
      }
    }
  }
}
