/** Sequence helpers shared by the model: JavaScript `Array.prototype.filter`
    and the concatenation of a list of lists. */
module Seqs {

  /** `s.filter(p)`: the elements satisfying `p`, in their original order. */
  function Filter<T>(s: seq<T>, p: T -> bool): (r: seq<T>)
    ensures |r| <= |s|
    ensures forall i :: 0 <= i < |r| ==> r[i] in s && p(r[i])
    ensures forall i :: 0 <= i < |s| && p(s[i]) ==> s[i] in r
  {
    if s == [] then []
    else (if p(s[0]) then [s[0]] else []) + Filter(s[1..], p)
  }

  /** What the filter keeps was in the list and satisfies the predicate. */
  lemma FilterMember<T>(s: seq<T>, p: T -> bool, x: T)
    requires x in Filter(s, p)
    ensures x in s && p(x)
  {
    var r := Filter(s, p);
    var i :| 0 <= i < |r| && r[i] == x;
  }

  /** Filtering a list with a given head decides the head, then filters the
      tail. */
  lemma FilterCons<T>(h: T, t: seq<T>, p: T -> bool)
    ensures Filter([h] + t, p) == (if p(h) then [h] else []) + Filter(t, p)
  {
    assert ([h] + t)[1..] == t;
  }

  /** Filtering keeps every occurrence of a kept element and drops every
      occurrence of a rejected one. */
  lemma {:induction false} FilterMultiset<T>(s: seq<T>, p: T -> bool, x: T)
    ensures multiset(Filter(s, p))[x] == if p(x) then multiset(s)[x] else 0
  {
    if s != [] {
      var h, t := s[0], s[1..];
      assert s == [h] + t;
      assert multiset(s) == multiset([h]) + multiset(t);
      FilterCons(h, t, p);
      assert multiset(Filter(s, p)) == multiset(if p(h) then [h] else []) + multiset(Filter(t, p));
      FilterMultiset(t, p, x);
    }
  }

  /** Filtering with a predicate that holds everywhere changes nothing. */
  lemma {:induction false} FilterAll<T>(s: seq<T>, p: T -> bool)
    requires forall i :: 0 <= i < |s| ==> p(s[i])
    ensures Filter(s, p) == s
  {
    if s != [] {
      FilterAll(s[1..], p);
      assert s == [s[0]] + s[1..];
    }
  }

  /** Filtering with a predicate that holds nowhere leaves nothing. */
  lemma {:induction false} FilterNone<T>(s: seq<T>, p: T -> bool)
    requires forall i :: 0 <= i < |s| ==> !p(s[i])
    ensures Filter(s, p) == []
  {
    if s != [] {
      FilterNone(s[1..], p);
    }
  }

  /** Filtering distributes over concatenation. */
  lemma {:induction false} FilterAppend<T>(a: seq<T>, b: seq<T>, p: T -> bool)
    ensures Filter(a + b, p) == Filter(a, p) + Filter(b, p)
  {
    if a != [] {
      FilterAppend(a[1..], b, p);
      assert (a + b)[1..] == a[1..] + b;
    } else {
      assert a + b == b;
    }
  }

  /** The positions of `s` where `p` holds, in increasing order. */
  function FilterIndices<T>(s: seq<T>, p: T -> bool): (ix: seq<nat>)
    ensures forall k :: 0 <= k < |ix| ==> ix[k] < |s| && p(s[ix[k]])
    ensures forall k, l :: 0 <= k < l < |ix| ==> ix[k] < ix[l]
    ensures forall j :: 0 <= j < |s| && p(s[j]) ==> j in ix
  {
    if s == [] then []
    else
      var front := FilterIndices(s[..|s| - 1], p);
      front + (if p(s[|s| - 1]) then [|s| - 1] else [])
  }

  /** The filter keeps order: its result is `s` read at the positions where
      `p` holds, one after the other. */
  lemma {:induction false} FilterInOrder<T>(s: seq<T>, p: T -> bool)
    ensures var r, ix := Filter(s, p), FilterIndices(s, p);
      |r| == |ix| && forall k :: 0 <= k < |r| ==> r[k] == s[ix[k]]
  {
    if s != [] {
      var x := s[|s| - 1];
      var front := s[..|s| - 1];
      assert s == front + [x];
      FilterCons(x, [], p);
      assert [x] + [] == [x];
      FilterInOrder(front, p);
      FilterAppend(front, [x], p);
      assert Filter(s, p) == Filter(front, p) + (if p(x) then [x] else []);
      assert FilterIndices(s, p) == FilterIndices(front, p) + (if p(x) then [|front|] else []);
      ReadAtSnoc(front, Filter(front, p), FilterIndices(front, p), x, p(x));
    }
  }

  /** Reading `s` at positions `ix` gives `r`; then reading `s + [x]` at those
      positions, followed by `|s|` when `x` is kept, gives `r` followed by
      `x` when it is kept. */
  lemma ReadAtSnoc<T>(s: seq<T>, r: seq<T>, ix: seq<nat>, x: T, keep: bool)
    requires |r| == |ix| && forall k :: 0 <= k < |ix| ==> ix[k] < |s| && r[k] == s[ix[k]]
    ensures var r', ix' := r + (if keep then [x] else []), ix + (if keep then [|s|] else []);
      |r'| == |ix'| && forall k :: 0 <= k < |r'| ==> r'[k] == (s + [x])[ix'[k]]
  {
  }

  /** The concatenation of a list of lists (what reading the groups one
      after the other gives back). */
  function Concat<T>(groups: seq<seq<T>>): seq<T> {
    if groups == [] then [] else groups[0] + Concat(groups[1..])
  }

  lemma {:induction false} ConcatSnoc<T>(groups: seq<seq<T>>, g: seq<T>)
    ensures Concat(groups + [g]) == Concat(groups) + g
  {
    if groups == [] {
      assert groups + [g] == [g];
    } else {
      assert (groups + [g])[1..] == groups[1..] + [g];
      ConcatSnoc(groups[1..], g);
    }
  }

  /** The last element of a non-empty sequence. */
  function Last<T>(s: seq<T>): T
    requires s != []
  {
    s[|s| - 1]
  }
}
