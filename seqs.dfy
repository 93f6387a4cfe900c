/** The array operations the views are built from (`Array.prototype.filter`,
    `Array.prototype.map`, reversal) and the facts about them that the view proofs use. */
module Seqs {

  /** `s.filter(p)`: the elements of `s` that satisfy `p`, in their order in `s`. */
  function Filter<T>(s: seq<T>, p: T -> bool): (r: seq<T>)
    ensures |r| <= |s|
    ensures forall x :: x in r ==> x in s && p(x)
    ensures forall x :: x in s && p(x) ==> x in r
    ensures multiset(r) <= multiset(s)
  {
    if s == [] then []
    else
      assert s == [s[0]] + s[1..];
      (if p(s[0]) then [s[0]] else []) + Filter(s[1..], p)
  }

  /** Filtering a sequence with a known first element. */
  lemma FilterCons<T>(x: T, t: seq<T>, p: T -> bool)
    ensures Filter([x] + t, p) == (if p(x) then [x] else []) + Filter(t, p)
  {
    assert ([x] + t)[0] == x;
    assert ([x] + t)[1..] == t;
  }

  /** Every position moved one place to the right. */
  function Shift(idx: seq<nat>): (r: seq<nat>)
    ensures |r| == |idx|
    ensures forall k :: 0 <= k < |idx| ==> r[k] == idx[k] + 1
  {
    seq(|idx|, k requires 0 <= k < |idx| => idx[k] + 1)
  }

  /** The positions of `s` whose elements satisfy `p`, in increasing order. */
  ghost function Positions<T>(s: seq<T>, p: T -> bool): seq<nat>
  {
    if s == [] then []
    else (if p(s[0]) then [0] else []) + Shift(Positions(s[1..], p))
  }

  /** There is one position for each element the filter keeps. */
  lemma {:induction false} PositionsLength<T>(s: seq<T>, p: T -> bool)
    ensures |Positions(s, p)| == |Filter(s, p)|
  {
    if s != [] {
      PositionsLength(s[1..], p);
    }
  }

  /** Position `j` of the tail is position `j + 1` of `s` when the head is kept, and
      position `j` when it is dropped, one place further right. */
  lemma PositionsAtTail<T>(s: seq<T>, p: T -> bool, j: nat, k: nat)
    requires s != [] && j < |Positions(s[1..], p)| && k == (if p(s[0]) then j + 1 else j)
    ensures k < |Positions(s, p)| && Positions(s, p)[k] == Positions(s[1..], p)[j] + 1
  {
    var rest := Positions(s[1..], p);
    assert Positions(s, p) == (if p(s[0]) then [0] else []) + Shift(rest);
    assert Shift(rest)[j] == rest[j] + 1;
  }

  /** Element `j` of the tail's filter is element `j + 1` of the filter when the head is
      kept, and element `j` when it is dropped. */
  lemma FilterAtTail<T>(s: seq<T>, p: T -> bool, j: nat, k: nat)
    requires s != [] && j < |Filter(s[1..], p)| && k == (if p(s[0]) then j + 1 else j)
    ensures k < |Filter(s, p)| && Filter(s, p)[k] == Filter(s[1..], p)[j]
  {
    assert Filter(s, p) == (if p(s[0]) then [s[0]] else []) + Filter(s[1..], p);
  }

  /** A kept head is the first position and the first element of the filter. */
  lemma FilterAtHead<T>(s: seq<T>, p: T -> bool)
    requires s != [] && p(s[0])
    ensures 0 < |Positions(s, p)| && Positions(s, p)[0] == 0
    ensures 0 < |Filter(s, p)| && Filter(s, p)[0] == s[0]
  {
    assert Positions(s, p) == [0] + Shift(Positions(s[1..], p));
    assert Filter(s, p) == [s[0]] + Filter(s[1..], p);
  }

  /** Element `k` of the filter is the element of `s` at the `k`-th position. */
  lemma {:induction false} FilterAt<T>(s: seq<T>, p: T -> bool, k: nat)
    requires k < |Positions(s, p)| == |Filter(s, p)|
    ensures Positions(s, p)[k] < |s| && Filter(s, p)[k] == s[Positions(s, p)[k]]
  {
    if p(s[0]) && k == 0 {
      FilterAtHead(s, p);
    } else {
      var t := s[1..];
      var j: nat := if p(s[0]) then k - 1 else k;
      PositionsLength(t, p);
      assert |Positions(s, p)| == (if p(s[0]) then 1 else 0) + |Positions(t, p)|;
      FilterAt(t, p, j);
      PositionsAtTail(s, p, j, k);
      FilterAtTail(s, p, j, k);
    }
  }

  /** Filtering keeps order (1): the result is `s` read at the positions `Positions(s, p)`. */
  lemma {:induction false} FilterReadsPositions<T>(s: seq<T>, p: T -> bool)
    ensures |Positions(s, p)| == |Filter(s, p)|
    ensures forall k :: 0 <= k < |Positions(s, p)| ==>
      Positions(s, p)[k] < |s| && Filter(s, p)[k] == s[Positions(s, p)[k]]
  {
    PositionsLength(s, p);
    forall k | 0 <= k < |Positions(s, p)|
      ensures Positions(s, p)[k] < |s| && Filter(s, p)[k] == s[Positions(s, p)[k]]
    {
      FilterAt(s, p, k);
    }
  }

  /** Filtering keeps order (2): the positions `Positions(s, p)` strictly increase. */
  lemma {:induction false} PositionsIncreasing<T>(s: seq<T>, p: T -> bool)
    ensures forall k, l :: 0 <= k < l < |Positions(s, p)| ==> Positions(s, p)[k] < Positions(s, p)[l]
  {
    if s != [] {
      PositionsIncreasing(s[1..], p);
      var rest := Positions(s[1..], p);
      var head: seq<nat> := if p(s[0]) then [0] else [];
      var idx := Positions(s, p);
      assert idx == head + Shift(rest);
      forall k, l | 0 <= k < l < |idx| ensures idx[k] < idx[l] {
        if k >= |head| {
          assert idx[k] == rest[k - |head|] + 1 && idx[l] == rest[l - |head|] + 1;
        }
      }
    }
  }

  /** Filtering drops nothing it should keep: every position whose element satisfies `p`
      is among `Positions(s, p)`. */
  lemma {:induction false} PositionsCoverMatches<T>(s: seq<T>, p: T -> bool)
    ensures forall i :: 0 <= i < |s| && p(s[i]) ==> i in Positions(s, p)
  {
    if s != [] {
      var t := s[1..];
      PositionsCoverMatches(t, p);
      var rest := Positions(t, p);
      var head: seq<nat> := if p(s[0]) then [0] else [];
      var shifted := Shift(rest);
      assert Positions(s, p) == head + shifted;
      forall i | 0 <= i < |s| && p(s[i]) ensures i in head + shifted {
        if i == 0 {
          assert (head + shifted)[0] == 0;
        } else {
          assert t[i - 1] == s[i];
          assert i - 1 in rest;
          var m :| 0 <= m < |rest| && rest[m] == i - 1;
          assert (head + shifted)[|head| + m] == i;
        }
      }
    }
  }

  /** How often `x` occurs in a filtered sequence. */
  lemma {:induction false} FilterCount<T>(s: seq<T>, p: T -> bool, x: T)
    ensures multiset(Filter(s, p))[x] == if p(x) then multiset(s)[x] else 0
  {
    if s != [] {
      var t := s[1..];
      FilterCount(t, p, x);
      assert s == [s[0]] + t;
      var head := if p(s[0]) then [s[0]] else [];
      assert Filter(s, p) == head + Filter(t, p);
      assert multiset(Filter(s, p)) == multiset(head) + multiset(Filter(t, p));
      assert multiset(s) == multiset{s[0]} + multiset(t);
    }
  }

  /** Filtering a sub-collection gives a sub-collection of the filtered whole. */
  lemma FilterMonotone<T>(a: seq<T>, b: seq<T>, p: T -> bool)
    requires multiset(a) <= multiset(b)
    ensures multiset(Filter(a, p)) <= multiset(Filter(b, p))
  {
    forall x ensures multiset(Filter(a, p))[x] <= multiset(Filter(b, p))[x] {
      FilterCount(a, p, x);
      FilterCount(b, p, x);
    }
  }

  /** A filter every element passes changes nothing. */
  lemma {:induction false} FilterAll<T>(s: seq<T>, p: T -> bool)
    requires forall x :: x in s ==> p(x)
    ensures Filter(s, p) == s
  {
    if s != [] {
      FilterAll(s[1..], p);
    }
  }

  /** Filtering by a stricter predicate is filtering the looser result again. */
  lemma {:induction false} FilterRefines<T>(s: seq<T>, p: T -> bool, q: T -> bool)
    requires forall x :: x in s && p(x) ==> q(x)
    ensures Filter(Filter(s, q), p) == Filter(s, p)
  {
    if s != [] {
      var t := s[1..];
      assert s == [s[0]] + t;
      FilterRefines(t, p, q);
      FilterCons(s[0], t, q);
      FilterCons(s[0], t, p);
      assert s[0] in s;
      if q(s[0]) {
        assert Filter(s, q) == [s[0]] + Filter(t, q);
        FilterCons(s[0], Filter(t, q), p);
      } else {
        assert !p(s[0]);
        assert Filter(s, q) == Filter(t, q);
        assert Filter(s, p) == Filter(t, p);
      }
    }
  }

  /** A filter no element passes leaves nothing. */
  lemma {:induction false} FilterNone<T>(s: seq<T>, p: T -> bool)
    requires forall x :: x in s ==> !p(x)
    ensures Filter(s, p) == []
  {
    if s != [] {
      assert s == [s[0]] + s[1..];
      FilterNone(s[1..], p);
    }
  }

  /** When exactly one position satisfies `p`, the filter is that one element. */
  lemma {:induction false} FilterSingle<T>(s: seq<T>, p: T -> bool, i: nat)
    requires i < |s| && p(s[i])
    requires forall j :: 0 <= j < |s| && j != i ==> !p(s[j])
    ensures Filter(s, p) == [s[i]]
  {
    if i == 0 {
      assert forall x :: x in s[1..] ==> !p(x) by {
        forall x | x in s[1..] ensures !p(x) {
          var j :| 0 <= j < |s[1..]| && s[1..][j] == x;
          assert s[j + 1] == x;
        }
      }
      assert Filter(s[1..], p) == [];
    } else {
      FilterSingle(s[1..], p, i - 1);
    }
  }

  /** Two sequences with the same elements and the same first element have the same
      remaining elements. */
  lemma MultisetTail<T>(a: seq<T>, b: seq<T>)
    requires a != [] && b != [] && a[0] == b[0] && multiset(a) == multiset(b)
    ensures multiset(a[1..]) == multiset(b[1..])
  {
    assert a == [a[0]] + a[1..] && b == [b[0]] + b[1..];
    assert multiset(a) == multiset{a[0]} + multiset(a[1..]);
    assert multiset(b) == multiset{b[0]} + multiset(b[1..]);
    forall x ensures multiset(a[1..])[x] == multiset(b[1..])[x] {
      assert multiset(a)[x] == multiset{a[0]}[x] + multiset(a[1..])[x];
      assert multiset(b)[x] == multiset{b[0]}[x] + multiset(b[1..])[x];
    }
  }

  /** `s.map(f)`. */
  function Map<T, U>(s: seq<T>, f: T -> U): (r: seq<U>)
    ensures |r| == |s|
    ensures forall i :: 0 <= i < |s| ==> r[i] == f(s[i])
  {
    if s == [] then [] else [f(s[0])] + Map(s[1..], f)
  }

  lemma MapCons<T, U>(x: T, s: seq<T>, f: T -> U)
    ensures Map([x] + s, f) == [f(x)] + Map(s, f)
  {
    assert ([x] + s)[1..] == s;
  }

  /** Removing element `k > 0` of `b` is keeping its head and removing element `k - 1`
      of its tail. */
  lemma RemoveTail<T>(b: seq<T>, k: nat)
    requires 0 < k < |b|
    ensures b[..k] + b[k + 1..] == [b[0]] + (b[1..][..k - 1] + b[1..][k..])
  {
    assert b[1..][..k - 1] == b[1..k] && b[1..][k..] == b[k + 1..];
    assert b[..k] == [b[0]] + b[1..k];
  }

  /** Taking element `k` out of `b` takes its image out of the map of `b`. */
  lemma {:induction false} MapRemove<T, U>(b: seq<T>, k: nat, f: T -> U)
    requires k < |b|
    ensures multiset(Map(b, f)) == multiset(Map(b[..k] + b[k + 1..], f)) + multiset{f(b[k])}
  {
    var t := b[1..];
    assert b == [b[0]] + t;
    MapCons(b[0], t, f);
    if k == 0 {
      assert b[..k] + b[k + 1..] == t;
    } else {
      var rest := t[..k - 1] + t[k..];
      MapRemove(t, k - 1, f);
      RemoveTail(b, k);
      MapCons(b[0], rest, f);
      var h, x := multiset{f(b[0])}, multiset{f(b[k])};
      assert multiset(Map(b, f)) == h + multiset(Map(t, f));
      assert multiset(Map(b[..k] + b[k + 1..], f)) == h + multiset(Map(rest, f));
    }
  }

  /** Taking element `k` out of `b` takes one occurrence of it out of `b`'s elements. */
  lemma MultisetRemove<T>(b: seq<T>, k: nat)
    requires k < |b|
    ensures multiset(b) == multiset(b[..k] + b[k + 1..]) + multiset{b[k]}
  {
    assert b == b[..k] + [b[k]] + b[k + 1..];
  }

  /** Cancelling one occurrence on both sides keeps the inclusion. */
  lemma MultisetCancel<T>(x: T, t: multiset<T>, u: multiset<T>)
    requires multiset{x} + t <= u + multiset{x}
    ensures t <= u
  {
    forall y ensures t[y] <= u[y] {
      assert (multiset{x} + t)[y] == multiset{x}[y] + t[y];
    }
  }

  /** Mapping a sub-collection gives a sub-collection of the mapped whole. */
  lemma {:induction false} MapMonotone<T, U>(a: seq<T>, b: seq<T>, f: T -> U)
    requires multiset(a) <= multiset(b)
    ensures multiset(Map(a, f)) <= multiset(Map(b, f))
    decreases |a|
  {
    if a != [] {
      var x, t := a[0], a[1..];
      assert a == [x] + t;
      assert x in multiset(b);
      var k :| 0 <= k < |b| && b[k] == x;
      var rest := b[..k] + b[k + 1..];
      MultisetRemove(b, k);
      MultisetCancel(x, multiset(t), multiset(rest));
      MapMonotone(t, rest, f);
      MapRemove(b, k, f);
      MapCons(x, t, f);
    }
  }

  /** The sequence read back to front. */
  function Reverse<T>(s: seq<T>): (r: seq<T>)
    ensures |r| == |s|
    ensures forall i :: 0 <= i < |s| ==> r[i] == s[|s| - 1 - i]
    ensures multiset(r) == multiset(s)
  {
    if s == [] then []
    else
      assert s == [s[0]] + s[1..];
      Reverse(s[1..]) + [s[0]]
  }
}
