/** Generic facts about sequences. They are stated over any element type, so
    that the solver reasons about positions only and never looks into the
    elements (lines of text, in this model). */
module Seqs {
  import opened Wrappers

  /** The position of the first element satisfying p, if any. */
  function FirstIndex<T>(s: seq<T>, p: T -> bool): (r: Option<nat>)
    ensures r.Some? ==> r.value < |s| && p(s[r.value])
    ensures r.Some? ==> forall j :: 0 <= j < r.value ==> !p(s[j])
    ensures r.None? ==> forall j :: 0 <= j < |s| ==> !p(s[j])
  {
    if s == [] then None
    else
      match FirstIndex(s[..|s| - 1], p)
      case Some(t) => Some(t)
      case None => if p(s[|s| - 1]) then Some(|s| - 1) else None
  }

  /** A first position already found stays the first when an element is
      appended. */
  lemma FirstIndexKept<T>(s: seq<T>, x: T, p: T -> bool)
    requires FirstIndex(s, p).Some?
    ensures FirstIndex(s + [x], p) == FirstIndex(s, p)
  {
    assert (s + [x])[..|s|] == s;
  }

  /** With no element satisfying p so far, the appended one is the first if it
      satisfies p. */
  lemma FirstIndexOfAppended<T>(s: seq<T>, x: T, p: T -> bool)
    requires FirstIndex(s, p).None?
    ensures FirstIndex(s + [x], p) == if p(x) then Some(|s|) else None
  {
    assert (s + [x])[..|s|] == s;
  }

  /** The elements that satisfy keep, in their order. */
  function Filter<T>(s: seq<T>, keep: T -> bool): (r: seq<T>)
    ensures |r| <= |s|
    ensures forall k :: 0 <= k < |r| ==> keep(r[k]) && r[k] in s
    ensures (forall k :: 0 <= k < |s| ==> keep(s[k])) ==> r == s
  {
    if s == [] then []
    else
      var init := s[..|s| - 1];
      var last := s[|s| - 1];
      assert s == init + [last];
      Filter(init, keep) + (if keep(last) then [last] else [])
  }

  lemma FilterSnoc<T>(s: seq<T>, x: T, keep: T -> bool)
    ensures Filter(s + [x], keep) == Filter(s, keep) + (if keep(x) then [x] else [])
  {
    assert (s + [x])[..|s|] == s;
  }

  /** The elements of the sequences, one sequence after the other. */
  function Flatten<T>(ss: seq<seq<T>>): seq<T> {
    if ss == [] then [] else ss[0] + Flatten(ss[1..])
  }

  lemma {:induction false} FlattenAppend<T>(a: seq<seq<T>>, b: seq<seq<T>>)
    ensures Flatten(a + b) == Flatten(a) + Flatten(b)
    decreases |a|
  {
    if a != [] {
      assert (a + b)[1..] == a[1..] + b;
      FlattenAppend(a[1..], b);
    } else {
      assert a + b == b;
    }
  }

  lemma FlattenSnoc<T>(a: seq<seq<T>>, x: seq<T>)
    ensures Flatten(a + [x]) == Flatten(a) + x
  {
    FlattenAppend(a, [x]);
    assert Flatten([x]) == x + Flatten([x][1..]);
  }

  lemma AppendCons<T>(a: seq<T>, x: T, b: seq<T>)
    ensures (a + [x]) + b == a + ([x] + b)
  {
  }

  lemma AppendNil<T>(a: seq<T>)
    ensures a + [] == a
  {
  }

  lemma NilAppend<T>(a: seq<T>)
    ensures [] + a == a
  {
  }

  lemma Assoc4<T>(a: seq<T>, b: seq<T>, c: seq<T>, d: seq<T>)
    ensures a + b + c + d == a + (b + c + d)
  {
  }

  lemma SliceSnoc<T>(a: seq<T>, x: T, i: nat)
    requires i <= |a|
    ensures (a + [x])[i..] == a[i..] + [x]
  {
  }

  lemma PrefixOfSnoc<T>(a: seq<T>, x: T, i: nat)
    requires i <= |a|
    ensures (a + [x])[..i] == a[..i]
  {
  }

  lemma ConcatSnoc<T>(a: seq<T>, b: seq<T>, x: T)
    ensures a + (b + [x]) == (a + b) + [x]
  {
  }

  lemma SliceOfSuffix<T>(a: seq<T>, lo: nat, n: nat)
    requires lo + n <= |a|
    ensures a[lo..][..n] == a[lo..lo + n]
  {
  }

  lemma FullSlice<T>(a: seq<T>)
    ensures a[..|a|] == a
  {
  }

  lemma PrefixSnoc<T>(a: seq<T>, i: nat)
    requires i < |a|
    ensures a[..i + 1] == a[..i] + [a[i]]
  {
  }

  lemma AppendAssoc<T>(a: seq<T>, b: seq<T>, c: seq<T>)
    ensures a + (b + c) == (a + b) + c
  {
  }

  lemma IndexLeft<T>(a: seq<T>, b: seq<T>, i: nat)
    requires i < |a|
    ensures (a + b)[i] == a[i]
  {
  }

  lemma IndexRight<T>(a: seq<T>, b: seq<T>, i: nat)
    requires |a| <= i < |a| + |b|
    ensures (a + b)[i] == b[i - |a|]
  {
  }

  lemma DropLastOfAppend<T>(a: seq<T>, b: seq<T>)
    requires b != []
    ensures (a + b)[..|a + b| - 1] == a + b[..|b| - 1]
    ensures (a + b)[|a + b| - 1] == b[|b| - 1]
  {
  }

  lemma SnocOfInit<T>(a: seq<T>)
    requires a != []
    ensures a[..|a| - 1] + [a[|a| - 1]] == a
  {
  }

  lemma PrefixOfAppend<T>(a: seq<T>, b: seq<T>)
    ensures (a + b)[..|a|] == a
  {
  }

  lemma SuffixOfAppend<T>(a: seq<T>, b: seq<T>)
    ensures (a + b)[|a|..] == b
  {
  }

  lemma MiddleOf<T>(a: seq<T>, x: seq<T>, b: seq<T>)
    ensures (a + x + b)[|a|..|a + x + b| - |b|] == x
  {
  }

  lemma PrefixOfPrefix<T>(a: seq<T>, i: nat, j: nat)
    requires i <= j <= |a|
    ensures a[..j][..i] == a[..i]
  {
  }

  lemma NotInAppend<T>(x: T, a: seq<T>, b: seq<T>)
    requires x !in a && x !in b
    ensures x !in a + b
  {
  }

  /** The value an option holds, as a sequence of at most one element. */
  function Found<T>(o: Option<T>): (r: seq<T>)
    ensures |r| <= 1
    ensures forall k :: 0 <= k < |r| ==> o == Some(r[k])
    ensures o.Some? ==> r != []
  {
    match o
    case Some(x) => [x]
    case None => []
  }

  /** LINQ Take: the first n elements, or all of them when there are fewer. */
  function Take<T>(s: seq<T>, n: nat): (r: seq<T>)
    ensures |r| == if |s| <= n then |s| else n
    ensures r == s[..|r|]
  {
    if |s| <= n then s else s[..n]
  }

  /** LINQ Select. */
  function Map<T, U>(s: seq<T>, f: T -> U): (r: seq<U>)
    ensures |r| == |s|
    ensures forall i :: 0 <= i < |s| ==> r[i] == f(s[i])
  {
    seq(|s|, i requires 0 <= i < |s| => f(s[i]))
  }

  lemma MapSnoc<T, U>(s: seq<T>, i: nat, f: T -> U)
    requires i < |s|
    ensures Map(s[..i + 1], f) == Map(s[..i], f) + [f(s[i])]
  {
  }

  lemma MapAppend<T, U>(a: seq<T>, b: seq<T>, f: T -> U)
    ensures Map(a + b, f) == Map(a, f) + Map(b, f)
  {
  }

  /** LINQ SelectMany: the sequences f gives for the elements, one after the
      other. */
  function FlatMap<T, U>(s: seq<T>, f: T -> seq<U>): seq<U> {
    if s == [] then [] else FlatMap(s[..|s| - 1], f) + f(s[|s| - 1])
  }

  lemma {:induction false} FlatMapMember<T, U>(s: seq<T>, f: T -> seq<U>, u: U)
    requires u in FlatMap(s, f)
    ensures exists k :: 0 <= k < |s| && u in f(s[k])
    decreases |s|
  {
    var init := s[..|s| - 1];
    if u !in f(s[|s| - 1]) {
      FlatMapMember(init, f, u);
      var k :| 0 <= k < |init| && u in f(init[k]);
      assert init[k] == s[k];
    }
  }

  lemma {:induction false} FilterAppend<T>(a: seq<T>, b: seq<T>, keep: T -> bool)
    ensures Filter(a + b, keep) == Filter(a, keep) + Filter(b, keep)
    decreases |b|
  {
    if b == [] {
      AppendNil(a);
      AppendNil(Filter(a, keep));
    } else {
      var init := b[..|b| - 1];
      var x := b[|b| - 1];
      SnocOfInit(b);
      ConcatSnoc(a, init, x);
      FilterSnoc(a + init, x, keep);
      FilterAppend(a, init, keep);
      FilterSnoc(init, x, keep);
      AppendAssoc(Filter(a, keep), Filter(init, keep), if keep(x) then [x] else []);
    }
  }
  /** Every element of a is an element of s. */
  predicate Within<T(==)>(a: seq<T>, s: seq<T>) {
    forall k :: 0 <= k < |a| ==> a[k] in s
  }

  lemma WithinAppend<T>(a: seq<T>, b: seq<T>, s: seq<T>)
    requires Within(a, s) && Within(b, s)
    ensures Within(a + b, s)
  {
    forall k | 0 <= k < |a + b| ensures (a + b)[k] in s {
      if k < |a| { IndexLeft(a, b, k); } else { IndexRight(a, b, k); }
    }
  }

  lemma WithinSuffix<T>(s: seq<T>, lo: nat)
    requires lo <= |s|
    ensures Within(s[lo..], s)
  {
    forall k | 0 <= k < |s[lo..]| ensures s[lo..][k] in s {
      assert s[lo..][k] == s[lo + k];
    }
  }

  /** What a filter keeps of a prefix of s is drawn from s. */
  lemma FilterPrefixWithin<T>(s: seq<T>, t: nat, keep: T -> bool)
    requires t <= |s|
    ensures Within(Filter(s[..t], keep), s)
  {
    var f := Filter(s[..t], keep);
    forall k | 0 <= k < |f| ensures f[k] in s {
      var j :| 0 <= j < t && s[..t][j] == f[k];
      assert s[j] == f[k];
    }
  }
}
