/** Results in frame order (src/nnrp/tools/ordered_buffer.py:52-101). */
module OrderedBuffer {
  import opened Outcomes
  import opened Sequences

  ghost predicate IsLeast<T>(m: map<nat, T>, f: nat) {
    f in m && forall g :: g in m ==> f <= g
  }

  lemma {:induction false} LeastExists<T>(m: map<nat, T>)
    requires |m| > 0
    ensures exists f :: IsLeast(m, f)
    decreases |m|
  {
    var f :| f in m;
    var rest := m - {f};
    if |rest| > 0 {
      assert |rest.Keys| < |m.Keys| by {
        assert rest.Keys == m.Keys - {f};
      }
      LeastExists(rest);
      var g :| IsLeast(rest, g);
      var least := if f < g then f else g;
      forall h | h in m
        ensures least <= h
      {
        assert h == f || h in rest;
      }
      assert IsLeast(m, least);
    } else {
      assert rest.Keys == {};
      assert forall g :: g in m ==> g == f || g in rest.Keys;
      assert IsLeast(m, f);
    }
  }

  ghost function Least<T>(m: map<nat, T>): (f: nat)
    requires |m| > 0
    ensures IsLeast(m, f)
  {
    LeastExists(m);
    var f :| IsLeast(m, f);
    f
  }

  ghost predicate Ascending(heap: seq<nat>) {
    forall i, j :: 0 <= i < j < |heap| ==> heap[i] <= heap[j]
  }

  lemma InsertAt(heap: seq<nat>, i: nat, f: nat)
    requires Ascending(heap) && i <= |heap|
    requires (i > 0 ==> heap[i - 1] <= f) && (i < |heap| ==> f < heap[i])
    ensures var h := heap[..i] + [f] + heap[i..];
            Ascending(h) && forall g :: g in h <==> g == f || g in heap
  {
    var before, after := heap[..i], heap[i..];
    assert Ascending(before) && Ascending(after) && Ascending([f]);
    assert i > 0 ==> before[|before| - 1] == heap[i - 1];
    assert i < |heap| ==> after[0] == heap[i];
    hide Ascending;
    AscendingJoin(before, [f]);
    AscendingJoin(before + [f], after);
    Inserted(heap, i, f);
  }

  lemma Inserted(heap: seq<nat>, i: nat, f: nat)
    requires i <= |heap|
    ensures forall g :: g in heap[..i] + [f] + heap[i..] <==> g == f || g in heap
  {
    assert heap == heap[..i] + heap[i..];
    assert forall g :: g in heap[..i] + heap[i..] <==> g in heap[..i] || g in heap[i..];
  }

  lemma AscendingJoin(a: seq<nat>, b: seq<nat>)
    requires Ascending(a) && Ascending(b) && (a != [] && b != [] ==> a[|a| - 1] <= b[0])
    ensures Ascending(a + b)
  {
    var h := a + b;
    forall i, j | 0 <= i < j < |h|
      ensures h[i] <= h[j]
    {
      if i < |a| <= j {
        assert a[i] <= a[|a| - 1] && b[0] <= b[j - |a|];
      }
    }
  }

  /** What popping until nothing is left returns, with the frame of each packet. */
  ghost function Drained<T>(m: map<nat, T>): seq<(nat, T)>
    decreases |m|
  {
    if |m| == 0 then []
    else
      var f := Least(m);
      assert (m - {f}).Keys == m.Keys - {f};
      [(f, m[f])] + Drained(m - {f})
  }

  lemma NothingDrained<T>()
    ensures Drained<T>(map[]) == []
  {
  }

  lemma DrainNext<T>(m: map<nat, T>, f: nat)
    requires IsLeast(m, f)
    ensures |m - {f}| < |m|
    ensures Drained(m) == [(f, m[f])] + Drained(m - {f})
  {
    assert f in m.Keys;
    assert (m - {f}).Keys == m.Keys - {f};
    assert Least(m) == f;
  }

  class FrameResultBuffer<T> {
    /** The frame ids pushed and not popped, least first, as `heapq` hands them out; some may be stale or double. */
    var heap: seq<nat>
    var byFrameId: map<nat, T>
    var ready: bool

    ghost predicate Valid()
      reads this
    {
      && Ascending(heap)
      && forall f :: f in byFrameId ==> f in heap
    }

    constructor ()
      ensures Valid() && byFrameId == map[] && !ready
    {
      heap, byFrameId, ready := [], map[], false;
    }

    /** `heapq.heappush`, by what it promises about the order of later pops. */
    method HeapPush(f: nat)
      requires Ascending(heap)
      modifies this`heap
      ensures Ascending(heap)
      ensures forall g :: g in heap <==> g == f || g in old(heap)
    {
      var i := |heap|;
      while i > 0 && f < heap[i - 1]
        invariant 0 <= i <= |heap|
        invariant forall k :: i <= k < |heap| ==> f < heap[k]
      {
        i := i - 1;
      }
      InsertAt(heap, i, f);
      heap := heap[..i] + [f] + heap[i..];
    }

    /** The packet replaces one already held for the frame. */
    method Add(frame: nat, packet: T)
      requires Valid()
      modifies this
      ensures Valid() && ready
      ensures byFrameId == old(byFrameId)[frame := packet]
    {
      if frame !in byFrameId {
        HeapPush(frame);
      }
      byFrameId := byFrameId[frame := packet];
      ready := true;
    }

    /** The least buffered frame id; looking may drop stale heap entries but never a packet. */
    method PeekNextFrameId() returns (r: Option<nat>)
      requires Valid()
      modifies this`heap
      ensures Valid()
      ensures r.None? <==> byFrameId == map[]
      ensures r.Some? ==> IsLeast(byFrameId, r.value) && heap != [] && heap[0] == r.value
    {
      while heap != []
        invariant Valid()
        decreases |heap|
      {
        if heap[0] in byFrameId {
          return Some(heap[0]);
        }
        heap := heap[1..];
      }
      r := None;
    }

    /** Removes and returns the packet of the least frame, unless another frame is expected. */
    method PopNext(expected: Option<nat>) returns (r: Option<T>)
      requires Valid()
      modifies this`heap, this`byFrameId
      ensures Valid()
      ensures r.None? ==> byFrameId == old(byFrameId)
      ensures r.None? <==> old(byFrameId) == map[] ||
                           (expected.Some? && !IsLeast(old(byFrameId), expected.value))
      ensures r.Some? ==> exists f :: IsLeast(old(byFrameId), f) && r.value == old(byFrameId)[f] &&
                                      byFrameId == old(byFrameId) - {f}
    {
      while heap != []
        invariant Valid() && byFrameId == old(byFrameId)
        decreases |heap|
      {
        var f := heap[0];
        if f !in byFrameId {
          heap := heap[1..];
        } else {
          assert IsLeast(byFrameId, f);
          if expected.Some? && f != expected.value {
            return None;
          }
          heap := heap[1..];
          r := Some(byFrameId[f]);
          byFrameId := byFrameId - {f};
          return;
        }
      }
      r := None;
    }

    /** Removes and returns the packet of one frame; its heap entry stays behind, stale. */
    method PopFrame(frame: nat) returns (r: Option<T>)
      requires Valid()
      modifies this`byFrameId, this`ready
      ensures Valid()
      ensures r == if frame in old(byFrameId) then Some(old(byFrameId)[frame]) else None
      ensures byFrameId == old(byFrameId) - {frame}
      ensures ready <==> old(ready) && byFrameId != map[]
    {
      r := if frame in byFrameId then Some(byFrameId[frame]) else None;
      byFrameId := byFrameId - {frame};
      if byFrameId == map[] {
        ready := false;
      }
    }

    /** What a consumer does: pops until nothing is left. The packets come out as the drain of the map says. */
    method PopAll() returns (packets: seq<T>)
      requires Valid()
      modifies this`heap, this`byFrameId
      ensures Valid() && byFrameId == map[]
      ensures |packets| == |Drained(old(byFrameId))|
      ensures forall i :: 0 <= i < |packets| ==> packets[i] == Drained(old(byFrameId))[i].1
    {
      hide Drained, Least;
      ghost var all := Drained(byFrameId);
      packets := [];
      while true
        invariant Valid()
        invariant |packets| <= |all| && Drained(byFrameId) == all[|packets|..]
        invariant forall i :: 0 <= i < |packets| ==> packets[i] == all[i].1
        decreases |byFrameId|
      {
        ghost var before := byFrameId;
        var r := PopNext(None);
        if r.None? {
          NothingDrained<T>();
          return;
        }
        ghost var f :| IsLeast(before, f) && r.value == before[f] && byFrameId == before - {f};
        DrainNext(before, f);
        assert all[|packets|..] == [(f, r.value)] + Drained(byFrameId);
        assert all[|packets| + 1..] == all[|packets|..][1..] == Drained(byFrameId);
        packets := packets + [r.value];
      }
    }
  }

  /** A drain is strictly ascending in frame id and hands out every packet exactly once. */
  lemma {:induction false} DrainedAscending<T>(m: map<nat, T>)
    ensures var d := Drained(m);
            && (forall i, j :: 0 <= i < j < |d| ==> d[i].0 < d[j].0)
            && (forall i :: 0 <= i < |d| ==> d[i].0 in m && m[d[i].0] == d[i].1)
            && (forall f :: f in m ==> (f, m[f]) in d)
            && |d| == |m|
    decreases |m|
  {
    if |m| > 0 {
      var f := Least(m);
      var rest := m - {f};
      assert rest.Keys == m.Keys - {f};
      assert |rest| == |m| - 1;
      DrainedAscending(rest);
      DrainStep(m, f, rest, Drained(rest));
    }
  }

  lemma DrainStep<T>(m: map<nat, T>, f: nat, rest: map<nat, T>, tail: seq<(nat, T)>)
    requires IsLeast(m, f) && rest == m - {f}
    requires forall i, j :: 0 <= i < j < |tail| ==> tail[i].0 < tail[j].0
    requires forall i :: 0 <= i < |tail| ==> tail[i].0 in rest && rest[tail[i].0] == tail[i].1
    requires forall g :: g in rest ==> (g, rest[g]) in tail
    ensures var d := [(f, m[f])] + tail;
            && (forall i, j :: 0 <= i < j < |d| ==> d[i].0 < d[j].0)
            && (forall i :: 0 <= i < |d| ==> d[i].0 in m && m[d[i].0] == d[i].1)
            && (forall g :: g in m ==> (g, m[g]) in d)
  {
    var d := [(f, m[f])] + tail;
    forall g | g in m
      ensures (g, m[g]) in d
    {
      if g == f {
        assert d[0] == (f, m[f]);
      } else {
        assert g in rest;
      }
    }
  }

  /** The buffer after a run of adds. */
  function Filled<T>(adds: seq<(nat, T)>): map<nat, T> {
    if adds == [] then map[]
    else Filled(adds[..|adds| - 1])[adds[|adds| - 1].0 := adds[|adds| - 1].1]
  }

  lemma {:induction false} FilledKeys<T>(adds: seq<(nat, T)>, f: nat)
    ensures f in Filled(adds) <==> exists i :: 0 <= i < |adds| && adds[i].0 == f
  {
    if adds != [] {
      var front, last := adds[..|adds| - 1], adds[|adds| - 1];
      FilledKeys(front, f);
      assert adds == front + [last];
      if last.0 == f {
        assert adds[|front|].0 == f;
      } else if f in Filled(front) {
        var i :| 0 <= i < |front| && front[i].0 == f;
        assert adds[i].0 == f;
      }
    }
  }

  /** A buffered frame holds the packet it was given last. */
  lemma {:induction false} FilledLast<T>(adds: seq<(nat, T)>, f: nat) returns (i: nat)
    requires f in Filled(adds)
    ensures i < |adds| && adds[i] == (f, Filled(adds)[f])
    ensures forall j :: i < j < |adds| ==> adds[j].0 != f
  {
    var front, last := adds[..|adds| - 1], adds[|adds| - 1];
    if last.0 == f {
      i := |front|;
    } else {
      i := FilledLast(front, f);
      assert forall j :: 0 <= j < |front| ==> adds[j] == front[j];
    }
  }

  /** Results of distinct frames come out in one order, in whatever order they completed. */
  lemma DrainIgnoresArrival<T>(adds: seq<(nat, T)>, others: seq<(nat, T)>)
    requires Permuted(adds, others)
    requires forall i, j :: 0 <= i < j < |adds| ==> adds[i].0 != adds[j].0
    requires forall i, j :: 0 <= i < j < |others| ==> others[i].0 != others[j].0
    ensures Drained(Filled(adds)) == Drained(Filled(others))
  {
    FilledWithin(adds, others);
    FilledWithin(others, adds);
    assert Filled(adds) == Filled(others);
  }

  lemma FilledWithin<T>(adds: seq<(nat, T)>, others: seq<(nat, T)>)
    requires Permuted(adds, others)
    requires forall i, j :: 0 <= i < j < |others| ==> others[i].0 != others[j].0
    ensures forall f :: f in Filled(adds) ==> f in Filled(others) && Filled(others)[f] == Filled(adds)[f]
  {
    forall f | f in Filled(adds)
      ensures f in Filled(others) && Filled(others)[f] == Filled(adds)[f]
    {
      var i := FilledLast(adds, f);
      assert adds[i] in adds;
      PermutedMember(adds, others, adds[i]);
      var k :| 0 <= k < |others| && others[k] == adds[i];
      assert others[k].0 == f;
      FilledKeys(others, f);
      var l := FilledLast(others, f);
      assert k == l;
    }
  }
}
