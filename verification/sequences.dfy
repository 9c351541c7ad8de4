/** Lists: keeping and mapping members, arrangements, distinct members and slices. */
module Sequences {

  /** The members that satisfy `keep`, in order. */
  function Filter<T>(s: seq<T>, keep: T -> bool): seq<T> {
    if s == [] then []
    else
      var last := s[|s| - 1];
      Filter(s[..|s| - 1], keep) + if keep(last) then [last] else []
  }

  lemma {:induction false} FilterAppend<T>(a: seq<T>, b: seq<T>, keep: T -> bool)
    ensures Filter(a + b, keep) == Filter(a, keep) + Filter(b, keep)
  {
    if b == [] {
      assert a + b == a;
    } else {
      FilterAppend(a, b[..|b| - 1], keep);
      assert (a + b)[..|a + b| - 1] == a + b[..|b| - 1];
    }
  }

  lemma {:induction false} FilterNone<T>(s: seq<T>, keep: T -> bool)
    requires forall x :: x in s ==> !keep(x)
    ensures Filter(s, keep) == []
  {
    if s != [] {
      FilterNone(s[..|s| - 1], keep);
    }
  }

  lemma {:induction false} FilterAll<T>(s: seq<T>, keep: T -> bool)
    requires forall x :: x in s ==> keep(x)
    ensures Filter(s, keep) == s
  {
    if s != [] {
      var front, last := s[..|s| - 1], s[|s| - 1];
      assert s == front + [last];
      assert keep(last) && forall x :: x in front ==> x in s;
      FilterAll(front, keep);
    }
  }

  lemma {:induction false} FilterMembers<T>(s: seq<T>, keep: T -> bool)
    ensures forall x :: x in Filter(s, keep) <==> x in s && keep(x)
  {
    if s != [] {
      FilterMembers(s[..|s| - 1], keep);
      assert s == s[..|s| - 1] + [s[|s| - 1]];
    }
  }

  function Map<S, T>(s: seq<S>, f: S -> T): (t: seq<T>)
    ensures |t| == |s| && forall i :: 0 <= i < |s| ==> t[i] == f(s[i])
  {
    seq(|s|, i requires 0 <= i < |s| => f(s[i]))
  }

  lemma MapAppend<S, T>(a: seq<S>, b: seq<S>, f: S -> T)
    ensures Map(a + b, f) == Map(a, f) + Map(b, f)
  {
  }

  ghost predicate Permuted<T>(s: seq<T>, t: seq<T>) {
    multiset(s) == multiset(t)
  }

  lemma PermutedMembers<T>(s: seq<T>, t: seq<T>)
    requires Permuted(s, t)
    ensures |s| == |t| && forall x :: x in s <==> x in t
  {
    assert |multiset(s)| == |multiset(t)|;
    assert forall x :: x in s <==> x in multiset(s);
    assert forall x :: x in t <==> x in multiset(t);
  }

  lemma PermutedMember<T>(s: seq<T>, t: seq<T>, x: T)
    requires Permuted(s, t) && x in s
    ensures x in t
  {
    assert x in multiset(s);
    assert x in multiset(t);
  }

  /** Taking one member out of a list takes it out of the members. */
  lemma MembersAround<T>(before: seq<T>, x: T, after: seq<T>)
    ensures multiset(before + [x] + after) == multiset(before + after) + multiset{x}
  {
    assert multiset(before + [x] + after) == multiset(before + [x]) + multiset(after);
    assert multiset(before + after) == multiset(before) + multiset(after);
  }

  lemma DropAround<T>(s: seq<T>, before: seq<T>, x: T, after: seq<T>)
    requires Permuted(s + [x], before + [x] + after)
    ensures Permuted(s, before + after)
  {
    MembersAround(before, x, after);
    MembersAround(s, x, []);
    assert s + [x] + [] == s + [x] && s + [] == s;
    assert multiset(s) + multiset{x} - multiset{x} == multiset(s);
    assert multiset(before + after) + multiset{x} - multiset{x} == multiset(before + after);
  }

  /** The last member of one arrangement, found in the other; the rest is an arrangement of the rest. */
  lemma PermutedLast<T>(s: seq<T>, t: seq<T>) returns (k: nat)
    requires Permuted(s, t) && s != []
    ensures k < |t| && t[k] == s[|s| - 1]
    ensures s == s[..|s| - 1] + [t[k]] && t == t[..k] + [t[k]] + t[k + 1..]
    ensures Permuted(s[..|s| - 1], t[..k] + t[k + 1..])
  {
    hide Permuted;
    var x := s[|s| - 1];
    assert x in s;
    PermutedMember(s, t, x);
    k :| 0 <= k < |t| && t[k] == x;
    assert s == s[..|s| - 1] + [x];
    assert t == t[..k] + [x] + t[k + 1..];
    DropAround(s[..|s| - 1], t[..k], x, t[k + 1..]);
  }

  lemma {:induction false} MapPermuted<S, T>(s: seq<S>, t: seq<S>, f: S -> T)
    requires Permuted(s, t)
    ensures Permuted(Map(s, f), Map(t, f))
  {
    PermutedMembers(s, t);
    if s != [] {
      var k := PermutedLast(s, t);
      MapPermuted(s[..|s| - 1], t[..k] + t[k + 1..], f);
      MapAppend(t[..k], t[k + 1..], f);
      MapAppend(t[..k] + [t[k]], t[k + 1..], f);
      MapAppend(t[..k], [t[k]], f);
      MapAppend(s[..|s| - 1], [t[k]], f);
    }
  }

  lemma {:induction false} FilterPermuted<T>(s: seq<T>, t: seq<T>, keep: T -> bool)
    requires Permuted(s, t)
    ensures Permuted(Filter(s, keep), Filter(t, keep))
  {
    PermutedMembers(s, t);
    if s != [] {
      var k := PermutedLast(s, t);
      FilterPermuted(s[..|s| - 1], t[..k] + t[k + 1..], keep);
      FilterAppend(t[..k], t[k + 1..], keep);
      FilterAppend(t[..k] + [t[k]], t[k + 1..], keep);
      FilterAppend(t[..k], [t[k]], keep);
      FilterAppend(s[..|s| - 1], [t[k]], keep);
    }
  }

  lemma FilterNext<T>(s: seq<T>, x: T, keep: T -> bool)
    ensures Filter(s + [x], keep) == Filter(s, keep) + (if keep(x) then [x] else [])
  {
    assert (s + [x])[..|s|] == s;
  }

  /** A member added to one of two lists is added to both together. */
  lemma PermutedNext<T>(s: seq<T>, x: T, kept: seq<T>, dropped: seq<T>)
    requires Permuted(s, kept + dropped)
    ensures Permuted(s + [x], kept + [x] + dropped) && Permuted(s + [x], kept + (dropped + [x]))
  {
    MembersAround(kept, x, dropped);
    assert kept + (dropped + [x]) == kept + dropped + [x];
    assert multiset(s + [x]) == multiset(s) + multiset{x};
    assert multiset(kept + dropped + [x]) == multiset(kept + dropped) + multiset{x};
  }

  /** A list is what a test keeps together with what it drops. */
  lemma {:induction false} FilterSplit<T>(s: seq<T>, keep: T -> bool, drop: T -> bool)
    requires forall x :: x in s ==> drop(x) == !keep(x)
    ensures Permuted(s, Filter(s, keep) + Filter(s, drop))
  {
    if s != [] {
      hide Filter, Permuted;
      var front, last := s[..|s| - 1], s[|s| - 1];
      assert s == front + [last] && last in s;
      assert forall x :: x in front ==> x in s;
      FilterSplit(front, keep, drop);
      FilterNext(front, last, keep);
      FilterNext(front, last, drop);
      PermutedNext(front, last, Filter(front, keep), Filter(front, drop));
      if keep(last) {
        assert Filter(front, drop) + [] == Filter(front, drop);
      } else {
        assert Filter(front, keep) + [] == Filter(front, keep);
      }
    }
  }

  predicate NoRepeats<T(==)>(s: seq<T>) {
    forall i, j :: 0 <= i < j < |s| ==> s[i] != s[j]
  }

  lemma Twice<T>(s: seq<T>, i: nat, j: nat)
    requires i < j < |s| && s[i] == s[j]
    ensures multiset(s)[s[i]] >= 2
  {
    assert s == s[..j] + s[j..];
    assert s[i] in s[..j] && s[j] in s[j..] by {
      assert s[..j][i] == s[i] && s[j..][0] == s[j];
    }
    assert multiset(s) == multiset(s[..j]) + multiset(s[j..]);
  }

  lemma {:induction false} DistinctCount<T>(s: seq<T>, x: T)
    requires NoRepeats(s)
    ensures multiset(s)[x] <= 1
  {
    if s != [] {
      DistinctCount(s[..|s| - 1], x);
      assert s == s[..|s| - 1] + [s[|s| - 1]];
      assert s[|s| - 1] !in s[..|s| - 1];
      assert s[|s| - 1] !in multiset(s[..|s| - 1]);
    }
  }

  lemma NoRepeatsPermuted<T>(s: seq<T>, t: seq<T>)
    requires NoRepeats(s) && Permuted(s, t)
    ensures NoRepeats(t)
  {
    forall i, j | 0 <= i < j < |t|
      ensures t[i] != t[j]
    {
      DistinctCount(s, t[i]);
      if t[i] == t[j] {
        Twice(t, i, j);
      }
    }
  }

  lemma PullOut<T>(s: seq<T>, x: T) returns (rest: seq<T>)
    requires x in s
    ensures multiset(s) == multiset{x} + multiset(rest)
    ensures forall y :: y in s && y != x ==> y in rest
  {
    var k :| 0 <= k < |s| && s[k] == x;
    rest := s[..k] + s[k + 1..];
    assert s == s[..k] + [x] + s[k + 1..];
    MembersAround(s[..k], x, s[k + 1..]);
  }

  lemma PullOutThree<T>(s: seq<T>, x: T, y: T, z: T) returns (rest: seq<T>)
    requires x in s && y in s && z in s && x != y && y != z && z != x
    ensures Permuted(s, [x, y, z] + rest) && Permuted(s, [y, z, x] + rest)
  {
    var one := PullOut(s, x);
    var two := PullOut(one, y);
    rest := PullOut(two, z);
    assert multiset(s) == multiset{x, y, z} + multiset(rest);
    ThreeFirst(x, y, z, rest);
    ThreeFirst(y, z, x, rest);
    assert multiset{x, y, z} == multiset{y, z, x};
  }

  lemma ThreeFirst<T>(x: T, y: T, z: T, rest: seq<T>)
    ensures multiset([x, y, z] + rest) == multiset{x, y, z} + multiset(rest)
  {
    assert [x, y, z] == [x, y] + [z];
    assert [x, y] == [x] + [y];
    assert multiset([x, y] + [z]) == multiset([x, y]) + multiset([z]);
    assert multiset([x, y, z] + rest) == multiset([x, y, z]) + multiset(rest);
  }

  lemma SliceJoin<T>(s: seq<T>, from: nat, at: nat, to: nat)
    requires from <= at <= to <= |s|
    ensures s[from..to] == s[from..at] + s[at..to]
  {
  }

  /** The last `n` members, all of them while there are fewer. */
  function LastOf<T>(s: seq<T>, n: nat): seq<T> {
    if |s| <= n then s else s[|s| - n..]
  }
}
