/** A stable sort by a comparison that need not be an order, as `list.sort` with `cmp_to_key` allows. */
module Sorting {
  import opened Sequences

  /** Moves `x` left past every element it is less than, from the right end. */
  function Insert<T>(sorted: seq<T>, x: T, less: (T, T) -> bool): seq<T> {
    if sorted == [] || !less(x, sorted[|sorted| - 1]) then sorted + [x]
    else Insert(sorted[..|sorted| - 1], x, less) + [sorted[|sorted| - 1]]
  }

  function Sort<T>(s: seq<T>, less: (T, T) -> bool): seq<T> {
    if s == [] then [] else Insert(Sort(s[..|s| - 1], less), s[|s| - 1], less)
  }

  /** Different members compare one way or the other, and none is less than itself. */
  ghost predicate Total<T>(members: seq<T>, less: (T, T) -> bool) {
    forall x, y :: x in members && y in members ==>
      !(less(x, y) && less(y, x)) && (x != y ==> less(x, y) || less(y, x))
  }

  /** No three members are each less than the next, round a cycle. */
  ghost predicate Acyclic<T>(members: seq<T>, less: (T, T) -> bool) {
    forall x, y, z :: x in members && y in members && z in members ==>
      !(less(x, y) && less(y, z) && less(z, x))
  }

  ghost predicate Sorted<T>(s: seq<T>, less: (T, T) -> bool) {
    forall i, j :: 0 <= i < j < |s| ==> !less(s[j], s[i])
  }

  lemma {:induction false} InsertPermutes<T>(s: seq<T>, x: T, less: (T, T) -> bool)
    ensures Permuted(Insert(s, x, less), s + [x])
  {
    if s != [] && less(x, s[|s| - 1]) {
      InsertPermutes(s[..|s| - 1], x, less);
      assert s == s[..|s| - 1] + [s[|s| - 1]];
    }
  }

  lemma {:induction false} SortPermutes<T>(s: seq<T>, less: (T, T) -> bool)
    ensures Permuted(Sort(s, less), s)
  {
    if s != [] {
      SortPermutes(s[..|s| - 1], less);
      InsertPermutes(Sort(s[..|s| - 1], less), s[|s| - 1], less);
      assert s == s[..|s| - 1] + [s[|s| - 1]];
    }
  }

  lemma {:induction false} InsertSorted<T>(s: seq<T>, x: T, less: (T, T) -> bool)
    requires Total(s + [x], less) && Acyclic(s + [x], less) && Sorted(s, less)
    ensures Sorted(Insert(s, x, less), less)
  {
    var all := s + [x];
    assert x in all && forall i :: 0 <= i < |s| ==> all[i] == s[i] && s[i] in all;
    if s == [] {
    } else if !less(x, s[|s| - 1]) {
      var last := s[|s| - 1];
      forall i | 0 <= i < |s|
        ensures !less(x, s[i])
      {
        assert i < |s| - 1 ==> !less(last, s[i]);
      }
    } else {
      var front, last := s[..|s| - 1], s[|s| - 1];
      assert forall y :: y in front + [x] ==> y in all;
      InsertSorted(front, x, less);
      InsertPermutes(front, x, less);
      PermutedMembers(Insert(front, x, less), front + [x]);
      forall i | 0 <= i < |Insert(front, x, less)|
        ensures !less(last, Insert(front, x, less)[i])
      {
        var y := Insert(front, x, less)[i];
        assert y in Insert(front, x, less);
        PermutedMember(Insert(front, x, less), front + [x], y);
        if y in front {
          var k :| 0 <= k < |front| && front[k] == y;
          assert !less(last, s[k]);
        }
      }
    }
  }

  /** Without cycles the result is in order. */
  lemma {:induction false} SortSorted<T>(s: seq<T>, less: (T, T) -> bool)
    requires Total(s, less) && Acyclic(s, less)
    ensures Sorted(Sort(s, less), less)
  {
    if s != [] {
      var front, last := s[..|s| - 1], s[|s| - 1];
      SortSorted(front, less);
      SortPermutes(front, less);
      PermutedMembers(Sort(front, less), front);
      var part := Sort(front, less);
      forall y | y in part + [last]
        ensures y in s
      {
        if y in part {
          PermutedMember(part, front, y);
        }
      }
      InsertSorted(Sort(front, less), last, less);
    }
  }

  /** A comparison that decides by more than `ahead` does, and never against it. */
  ghost predicate Refines<T(!new)>(less: (T, T) -> bool, ahead: (T, T) -> bool) {
    && (forall x, y :: ahead(x, y) ==> less(x, y) && !less(y, x))
    && (forall x, y, z :: ahead(x, z) ==> ahead(x, y) || ahead(y, z))
  }

  lemma {:induction false} InsertRefined<T(!new)>(s: seq<T>, x: T, less: (T, T) -> bool, ahead: (T, T) -> bool)
    requires Refines(less, ahead) && Sorted(s, ahead)
    ensures Sorted(Insert(s, x, less), ahead)
  {
    if s != [] {
      var front, last := s[..|s| - 1], s[|s| - 1];
      if less(x, last) {
        InsertRefined(front, x, less, ahead);
        InsertPermutes(front, x, less);
        var part := Insert(front, x, less);
        forall i | 0 <= i < |part|
          ensures !ahead(last, part[i])
        {
          assert part[i] in part;
          PermutedMember(part, front + [x], part[i]);
          if part[i] in front {
            var k :| 0 <= k < |front| && front[k] == part[i];
            assert s[k] == front[k];
          }
        }
      } else {
        assert !ahead(x, last);
        forall i | 0 <= i < |s|
          ensures !ahead(x, s[i])
        {
          assert i < |s| - 1 ==> !ahead(last, s[i]);
        }
      }
    }
  }

  /** Whatever cycles the comparison has, the result is in the order of any coarser order it refines. */
  lemma {:induction false} SortRefined<T(!new)>(s: seq<T>, less: (T, T) -> bool, ahead: (T, T) -> bool)
    requires Refines(less, ahead)
    ensures Sorted(Sort(s, less), ahead)
  {
    if s != [] {
      SortRefined(s[..|s| - 1], less, ahead);
      InsertRefined(Sort(s[..|s| - 1], less), s[|s| - 1], less, ahead);
    }
  }

  /** There is one order only: two sorted arrangements of the same members are equal. */
  lemma {:induction false} SortedUnique<T>(s: seq<T>, t: seq<T>, less: (T, T) -> bool)
    requires Total(s, less) && Sorted(s, less) && Sorted(t, less) && Permuted(s, t)
    ensures s == t
  {
    PermutedMembers(s, t);
    if s != [] {
      FirstsAgree(s, t, less);
      TailTotal(s, less);
      TailTotal(t, less);
      hide Total, Sorted;
      assert s == [s[0]] + s[1..] && t == [t[0]] + t[1..];
      assert multiset(s[1..]) == multiset(s) - multiset{s[0]};
      assert multiset(t[1..]) == multiset(t) - multiset{t[0]};
      SortedUnique(s[1..], t[1..], less);
    }
  }

  lemma TailTotal<T>(s: seq<T>, less: (T, T) -> bool)
    requires s != []
    ensures Total(s, less) ==> Total(s[1..], less)
    ensures Sorted(s, less) ==> Sorted(s[1..], less)
  {
    assert forall x :: x in s[1..] ==> x in s;
  }

  lemma FirstsAgree<T>(s: seq<T>, t: seq<T>, less: (T, T) -> bool)
    requires s != [] && Total(s, less) && Sorted(s, less) && Sorted(t, less) && Permuted(s, t)
    ensures t != [] && s[0] == t[0]
  {
    PermutedMembers(s, t);
    assert s[0] in t && t[0] in s;
  }

  lemma TotalForPermuted<T>(s: seq<T>, t: seq<T>, less: (T, T) -> bool)
    requires Permuted(s, t)
    ensures Total(s, less) == Total(t, less) && Acyclic(s, less) == Acyclic(t, less)
  {
    PermutedMembers(s, t);
  }

  /** Without cycles, every arrangement of the same members sorts alike. */
  lemma SortIgnoresOrder<T>(s: seq<T>, t: seq<T>, less: (T, T) -> bool)
    requires Total(s, less) && Acyclic(s, less) && Permuted(s, t)
    ensures Sort(s, less) == Sort(t, less)
  {
    TotalForPermuted(s, t, less);
    SortSorted(s, less);
    SortSorted(t, less);
    SortPermutes(s, less);
    SortPermutes(t, less);
    TotalForPermuted(s, Sort(s, less), less);
    SortedUnique(Sort(s, less), Sort(t, less), less);
  }

  ghost predicate Before<T>(s: seq<T>, x: T, y: T) {
    exists i, j :: 0 <= i < j < |s| && s[i] == x && s[j] == y
  }

  lemma {:induction false} InsertKeepsBefore<T>(s: seq<T>, e: T, less: (T, T) -> bool, x: T, y: T)
    requires Before(s, x, y)
    ensures Before(Insert(s, e, less), x, y)
  {
    var i, j :| 0 <= i < j < |s| && s[i] == x && s[j] == y;
    var r := Insert(s, e, less);
    if !less(e, s[|s| - 1]) {
      assert r[i] == x && r[j] == y;
    } else {
      var front := s[..|s| - 1];
      InsertPermutes(front, e, less);
      PermutedMembers(Insert(front, e, less), front + [e]);
      if j < |front| {
        assert front[i] == x && front[j] == y;
        InsertKeepsBefore(front, e, less, x, y);
        var a, b :| 0 <= a < b < |Insert(front, e, less)| &&
                    Insert(front, e, less)[a] == x && Insert(front, e, less)[b] == y;
        assert r[a] == x && r[b] == y;
      } else {
        assert front[i] == x && x in front + [e];
        var a :| 0 <= a < |Insert(front, e, less)| && Insert(front, e, less)[a] == x;
        assert r[a] == x && r[|r| - 1] == y;
      }
    }
  }

  lemma {:induction false} SortKeepsBefore<T>(s: seq<T>, more: seq<T>, less: (T, T) -> bool, x: T, y: T)
    requires Before(Sort(s, less), x, y)
    ensures Before(Sort(s + more, less), x, y)
  {
    if more == [] {
      assert s + more == s;
    } else {
      var front := more[..|more| - 1];
      SortKeepsBefore(s, front, less, x, y);
      assert (s + more)[..|s + more| - 1] == s + front;
      InsertKeepsBefore(Sort(s + front, less), more[|more| - 1], less, x, y);
    }
  }

  /** A list whose neighbours are in order is left alone. */
  lemma SortThree<T>(x: T, y: T, z: T, less: (T, T) -> bool)
    requires !less(y, x) && !less(z, y)
    ensures Sort([x, y, z], less) == [x, y, z]
  {
    var xy, xyz := [x, y], [x, y, z];
    assert [x][..0] == [] && xy[..1] == [x] && xyz[..2] == xy;
    assert Sort([x], less) == [x];
    assert Sort(xy, less) == Insert([x], y, less) == xy;
    assert Sort(xyz, less) == Insert(xy, z, less);
  }

  lemma OneWay<T>(s: seq<T>, x: T, y: T, less: (T, T) -> bool)
    requires Total(s, less) && x in s && y in s && less(x, y)
    ensures !less(y, x)
  {
  }

  /** With a cycle among three members the sorted result depends on the order they arrive in. */
  lemma CycleDependsOnOrder<T>(x: T, y: T, z: T, rest: seq<T>, less: (T, T) -> bool)
    requires less(x, y) && less(y, z) && less(z, x)
    requires var s := [x, y, z] + rest; Total(s, less) && NoRepeats(s)
    ensures Permuted([x, y, z] + rest, [y, z, x] + rest)
    ensures Sort([x, y, z] + rest, less) != Sort([y, z, x] + rest, less)
  {
    hide Sort, Total;
    var s, t := [x, y, z] + rest, [y, z, x] + rest;
    assert x == s[0] && y == s[1] && z == s[2];
    OneWay(s, x, y, less);
    OneWay(s, y, z, less);
    OneWay(s, z, x, less);
    SortThree(x, y, z, less);
    SortThree(y, z, x, less);
    assert [x, y, z][0] == x && [x, y, z][2] == z;
    assert [y, z, x][1] == z && [y, z, x][2] == x;
    assert Before([x, y, z], x, z) && Before([y, z, x], z, x);
    SortKeepsBefore([x, y, z], rest, less, x, z);
    SortKeepsBefore([y, z, x], rest, less, z, x);
    SortPermutes(s, less);
    NotBothWays(Sort(s, less), s, x, z);
    assert multiset(s) == multiset([x, y, z]) + multiset(rest) == multiset([y, z, x]) + multiset(rest);
  }

  lemma NotBothWays<T>(s: seq<T>, distinct: seq<T>, x: T, z: T)
    requires Permuted(s, distinct) && Before(s, x, z)
    requires NoRepeats(distinct)
    ensures !Before(s, z, x)
  {
    if Before(s, z, x) {
      var i, j :| 0 <= i < j < |s| && s[i] == x && s[j] == z;
      var k, l :| 0 <= k < l < |s| && s[k] == z && s[l] == x;
      DistinctCount(distinct, x);
      DistinctCount(distinct, z);
      if i != l {
        Twice(s, if i < l then i else l, if i < l then l else i);
      } else {
        Twice(s, k, j);
      }
    }
  }

  lemma MapFront<S, T>(s: seq<S>, f: S -> T)
    requires s != []
    ensures Map(s, f)[..|s| - 1] == Map(s[..|s| - 1], f) && Map(s, f)[|s| - 1] == f(s[|s| - 1])
  {
  }

  /** Sorting decorated members sorts what they decorate. */
  lemma {:induction false} SortMap<S(!new), T>(s: seq<S>, f: S -> T, lessS: (S, S) -> bool, lessT: (T, T) -> bool)
    requires forall x, y :: lessS(x, y) == lessT(f(x), f(y))
    ensures Map(Sort(s, lessS), f) == Sort(Map(s, f), lessT)
  {
    hide Insert, Map;
    if s != [] {
      MapFront(s, f);
      SortMap(s[..|s| - 1], f, lessS, lessT);
      InsertMap(Sort(s[..|s| - 1], lessS), s[|s| - 1], f, lessS, lessT);
    }
  }

  lemma {:induction false} InsertMap<S(!new), T>(
    s: seq<S>, x: S, f: S -> T, lessS: (S, S) -> bool, lessT: (T, T) -> bool)
    requires forall x, y :: lessS(x, y) == lessT(f(x), f(y))
    ensures Map(Insert(s, x, lessS), f) == Insert(Map(s, f), f(x), lessT)
  {
    hide Map;
    if s != [] && lessS(x, s[|s| - 1]) {
      var front, last := s[..|s| - 1], s[|s| - 1];
      MapFront(s, f);
      InsertMap(front, x, f, lessS, lessT);
      assert Insert(s, x, lessS) == Insert(front, x, lessS) + [last];
      MapAppend(Insert(front, x, lessS), [last], f);
      assert Map([last], f) == [f(last)];
    } else {
      assert Insert(s, x, lessS) == s + [x];
      MapAppend(s, [x], f);
      assert Map([x], f) == [f(x)];
    }
  }

  predicate Below(x: int, y: int) {
    x < y
  }

  /** The middle of a list once sorted, twice, or the two middle values. */
  function MiddlesBy<T>(values: seq<T>, less: (T, T) -> bool): (T, T)
    requires values != []
  {
    SortPermutes(values, less);
    PermutedMembers(Sort(values, less), values);
    var s, upper := Sort(values, less), |values| / 2;
    (if |values| % 2 == 1 then s[upper] else s[upper - 1], s[upper])
  }

  function Middles(values: seq<int>): (int, int)
    requires values != []
  {
    MiddlesBy(values, Below)
  }

  function Count(values: seq<int>, p: int -> bool): nat {
    if values == [] then 0
    else Count(values[..|values| - 1], p) + if p(values[|values| - 1]) then 1 else 0
  }

  lemma {:induction false} CountAppend(a: seq<int>, b: seq<int>, p: int -> bool)
    ensures Count(a + b, p) == Count(a, p) + Count(b, p)
  {
    if b == [] {
      assert a + b == a;
    } else {
      CountAppend(a, b[..|b| - 1], p);
      assert (a + b)[..|a + b| - 1] == a + b[..|b| - 1];
    }
  }

  lemma {:induction false} CountPermuted(s: seq<int>, t: seq<int>, p: int -> bool)
    requires Permuted(s, t)
    ensures Count(s, p) == Count(t, p)
  {
    PermutedMembers(s, t);
    if s != [] {
      var k := PermutedLast(s, t);
      CountPermuted(s[..|s| - 1], t[..k] + t[k + 1..], p);
      CountAppend(t[..k], t[k + 1..], p);
      CountAppend(t[..k] + [t[k]], t[k + 1..], p);
      CountAppend(t[..k], [t[k]], p);
      CountAppend(s[..|s| - 1], [t[k]], p);
    }
  }

  lemma {:induction false} CountAll(s: seq<int>, p: int -> bool)
    requires forall i :: 0 <= i < |s| ==> p(s[i])
    ensures Count(s, p) == |s|
  {
    if s != [] {
      CountAll(s[..|s| - 1], p);
    }
  }

  function AtMost(m: int): int -> bool {
    (v: int) => v <= m
  }

  function AtLeast(m: int): int -> bool {
    (v: int) => v >= m
  }

  /** At least half of the values are no greater than the lower middle, and at least half no less than the upper. */
  lemma MiddlesSplit(values: seq<int>)
    requires values != []
    ensures var m := Middles(values);
            && m.0 <= m.1
            && 2 * Count(values, AtMost(m.0)) >= |values|
            && 2 * Count(values, AtLeast(m.1)) >= |values|
  {
    hide Sort, Count;
    var s, m := Sort(values, Below), Middles(values);
    SortPermutes(values, Below);
    PermutedMembers(s, values);
    SortSorted(values, Below);
    var lower := if |values| % 2 == 1 then |values| / 2 else |values| / 2 - 1;
    var upper := |values| / 2;
    CountAtMost(s, lower);
    CountAtLeast(s, upper);
    CountPermuted(s, values, AtMost(m.0));
    CountPermuted(s, values, AtLeast(m.1));
  }

  lemma CountAtMost(s: seq<int>, i: nat)
    requires i < |s| && Sorted(s, Below)
    ensures Count(s, AtMost(s[i])) >= i + 1
  {
    hide Count;
    assert s == s[..i + 1] + s[i + 1..];
    CountAll(s[..i + 1], AtMost(s[i]));
    CountAppend(s[..i + 1], s[i + 1..], AtMost(s[i]));
  }

  lemma CountAtLeast(s: seq<int>, i: nat)
    requires i < |s| && Sorted(s, Below)
    ensures Count(s, AtLeast(s[i])) >= |s| - i
  {
    hide Count;
    assert s == s[..i] + s[i..];
    CountAll(s[i..], AtLeast(s[i]));
    CountAppend(s[..i], s[i..], AtLeast(s[i]));
  }
}
