/** Order-preserving selection over sequences: the boolean-mask filters,
    `unique()` and first-occurrence lookups that the cleaners and the
    multi-country processor are built from. */
module Sequences {

  /** The elements of `s` that satisfy `p`, in their original order
      (a boolean-mask selection such as `df[mask]`). */
  function Filter<T>(p: T -> bool, s: seq<T>): (r: seq<T>)
    ensures |r| <= |s|
    ensures forall x :: x in r ==> x in s && p(x)
  {
    if s == [] then []
    else if p(s[0]) then [s[0]] + Filter(p, s[1..])
    else Filter(p, s[1..])
  }

  /** The conjunction of two row predicates. */
  function Both<T>(p: T -> bool, q: T -> bool): T -> bool
  {
    x => p(x) && q(x)
  }

  /** `idx` lists, strictly ascending, positions of `s` whose elements make up `r`. */
  ghost predicate SelectedAt<T>(r: seq<T>, s: seq<T>, idx: seq<int>)
  {
    && |idx| == |r|
    && (forall k :: 0 <= k < |idx| ==> 0 <= idx[k] < |s| && r[k] == s[idx[k]])
    && (forall k, l :: 0 <= k < l < |idx| ==> idx[k] < idx[l])
  }

  /** No element occurs twice. */
  ghost predicate NoDuplicates<T>(s: seq<T>)
  {
    forall i, j :: 0 <= i < j < |s| ==> s[i] != s[j]
  }

  /** The positions `j >= i` of `s` whose elements satisfy `p`, ascending. */
  function PositionsFrom<T>(p: T -> bool, s: seq<T>, i: nat): seq<int>
    requires i <= |s|
    decreases |s| - i
  {
    if i == |s| then []
    else if p(s[i]) then [i] + PositionsFrom(p, s, i + 1)
    else PositionsFrom(p, s, i + 1)
  }

  /** The positions of `s` whose elements satisfy `p`, ascending. */
  function Positions<T>(p: T -> bool, s: seq<T>): seq<int>
  {
    PositionsFrom(p, s, 0)
  }

  /** The positions found from `i` on are ascending, lie in `[i, |s|)`, and are
      exactly those whose element satisfies `p`. */
  lemma {:induction false} PositionsFromExact<T>(p: T -> bool, s: seq<T>, i: nat)
    requires i <= |s|
    ensures forall k :: 0 <= k < |PositionsFrom(p, s, i)| ==> i <= PositionsFrom(p, s, i)[k] < |s|
    ensures forall k, l :: 0 <= k < l < |PositionsFrom(p, s, i)| ==>
      PositionsFrom(p, s, i)[k] < PositionsFrom(p, s, i)[l]
    ensures forall j :: i <= j < |s| ==> (p(s[j]) <==> j in PositionsFrom(p, s, i))
    decreases |s| - i
  {
    if i < |s| {
      PositionsFromExact(p, s, i + 1);
      var rest := PositionsFrom(p, s, i + 1);
      if p(s[i]) {
        var idx := [i] + rest;
        assert PositionsFrom(p, s, i) == idx;
        forall k, l | 0 <= k < l < |idx|
          ensures idx[k] < idx[l]
        {
          assert idx[l] == rest[l - 1];
        }
        forall j | i < j < |s|
          ensures j in idx <==> j in rest
        {
        }
      } else {
        assert i !in rest;
      }
    }
  }

  lemma {:induction false} FilterFromSelects<T>(p: T -> bool, s: seq<T>, i: nat)
    requires i <= |s|
    ensures |PositionsFrom(p, s, i)| == |Filter(p, s[i..])|
    ensures forall k :: 0 <= k < |PositionsFrom(p, s, i)| ==>
      0 <= PositionsFrom(p, s, i)[k] < |s| && Filter(p, s[i..])[k] == s[PositionsFrom(p, s, i)[k]]
    decreases |s| - i
  {
    if i < |s| {
      FilterFromSelects(p, s, i + 1);
      assert s[i..][0] == s[i] && s[i..][1..] == s[i + 1..];
      var rest := PositionsFrom(p, s, i + 1);
      var fr := Filter(p, s[i + 1..]);
      if p(s[i]) {
        assert Filter(p, s[i..]) == [s[i]] + fr;
        assert PositionsFrom(p, s, i) == [i] + rest;
      } else {
        assert Filter(p, s[i..]) == fr;
      }
    }
  }

  /** `Filter(p, s)` is exactly the elements of `s` at the positions where `p`
      holds, kept as unchanged copies and in their original order. */
  lemma FilterIsOrderedSelection<T>(p: T -> bool, s: seq<T>)
    ensures SelectedAt(Filter(p, s), s, Positions(p, s))
    ensures forall j :: 0 <= j < |s| ==> (p(s[j]) <==> j in Positions(p, s))
  {
    assert s[0..] == s;
    PositionsFromExact(p, s, 0);
    FilterFromSelects(p, s, 0);
  }

  /** Every occurrence of an element satisfying `p` survives the filter, and no
      other element does. */
  lemma {:induction false} FilterMultiplicity<T>(p: T -> bool, s: seq<T>, x: T)
    ensures multiset(Filter(p, s))[x] == if p(x) then multiset(s)[x] else 0
  {
    if s != [] {
      FilterMultiplicity(p, s[1..], x);
      assert s == [s[0]] + s[1..];
      assert multiset(s) == multiset([s[0]]) + multiset(s[1..]);
      if p(s[0]) {
        assert multiset(Filter(p, s)) == multiset([s[0]]) + multiset(Filter(p, s[1..]));
      }
    }
  }

  /** No element satisfying `p` is dropped. */
  lemma FilterKeeps<T>(p: T -> bool, s: seq<T>, x: T)
    requires x in s && p(x)
    ensures x in Filter(p, s)
  {
    FilterMultiplicity(p, s, x);
  }

  /** Filtering a sequence whose elements all pass changes nothing. */
  lemma {:induction false} FilterAll<T>(p: T -> bool, s: seq<T>)
    requires forall x :: x in s ==> p(x)
    ensures Filter(p, s) == s
  {
    if s != [] {
      FilterAll(p, s[1..]);
      assert s == [s[0]] + s[1..];
    }
  }

  /** Two predicates that agree on the elements of `s` select the same elements. */
  lemma {:induction false} FilterAgree<T>(p: T -> bool, q: T -> bool, s: seq<T>)
    requires forall x :: x in s ==> p(x) == q(x)
    ensures Filter(p, s) == Filter(q, s)
  {
    if s != [] {
      FilterAgree(p, q, s[1..]);
    }
  }

  /** Two successive filters select what the filter on their conjunction selects. */
  lemma {:induction false} FilterFilter<T>(p: T -> bool, q: T -> bool, s: seq<T>)
    ensures Filter(q, Filter(p, s)) == Filter(Both(p, q), s)
  {
    if s != [] {
      FilterFilter(p, q, s[1..]);
      var rest := Filter(p, s[1..]);
      if p(s[0]) {
        assert ([s[0]] + rest)[0] == s[0];
        assert ([s[0]] + rest)[1..] == rest;
      }
    }
  }

  /** The order in which two filters are applied does not matter. */
  lemma FilterCommutes<T>(p: T -> bool, q: T -> bool, s: seq<T>)
    ensures Filter(q, Filter(p, s)) == Filter(p, Filter(q, s))
  {
    FilterFilter(p, q, s);
    FilterFilter(q, p, s);
    FilterAgree(Both(p, q), Both(q, p), s);
  }

  /** Filtering distributes over concatenation. */
  lemma {:induction false} FilterAppend<T>(p: T -> bool, a: seq<T>, b: seq<T>)
    ensures Filter(p, a + b) == Filter(p, a) + Filter(p, b)
  {
    if a == [] {
      assert a + b == b;
    } else {
      var ab := a + b;
      assert ab[0] == a[0] && ab[1..] == a[1..] + b;
      FilterAppend(p, a[1..], b);
      var head := if p(a[0]) then [a[0]] else [];
      assert Filter(p, ab) == head + Filter(p, ab[1..]);
      assert Filter(p, a) == head + Filter(p, a[1..]);
    }
  }

  /** Filtering a sequence grown by one element grows the result by that
      element when it satisfies `p`. */
  lemma FilterSnoc<T>(p: T -> bool, s: seq<T>, x: T)
    ensures Filter(p, s + [x]) == Filter(p, s) + (if p(x) then [x] else [])
  {
    FilterAppend(p, s, [x]);
    assert [x][1..] == [];
  }

  /** Filtering keeps elements in the order they have in `s`, so an order on
      `s` given by first positions in `ref` holds on the result too. */
  lemma FilterKeepsOrder<T>(p: T -> bool, s: seq<T>, ref: seq<T>)
    requires forall x :: x in s ==> x in ref
    requires forall i, j :: 0 <= i < j < |s| ==> IndexOf(ref, s[i]) < IndexOf(ref, s[j])
    ensures forall i, j :: 0 <= i < j < |Filter(p, s)| ==>
      IndexOf(ref, Filter(p, s)[i]) < IndexOf(ref, Filter(p, s)[j])
  {
    var r := Filter(p, s);
    var idx := Positions(p, s);
    FilterIsOrderedSelection(p, s);
    forall i, j | 0 <= i < j < |r|
      ensures IndexOf(ref, r[i]) < IndexOf(ref, r[j])
    {
      assert r[i] == s[idx[i]] && r[j] == s[idx[j]] && idx[i] < idx[j];
    }
  }

  /** The first element `Filter` keeps is the earliest element of `s` that
      satisfies `p`. */
  lemma {:induction false} FilterHead<T>(p: T -> bool, s: seq<T>)
    requires |Filter(p, s)| > 0
    ensures exists i ::
      && 0 <= i < |s| && p(s[i]) && Filter(p, s)[0] == s[i]
      && forall j :: 0 <= j < i ==> !p(s[j])
  {
    if !p(s[0]) {
      FilterHead(p, s[1..]);
      var i :|
        && 0 <= i < |s[1..]| && p(s[1..][i]) && Filter(p, s[1..])[0] == s[1..][i]
        && forall j :: 0 <= j < i ==> !p(s[1..][j]);
      assert forall j :: 0 <= j < i + 1 ==> !p(s[j]) by {
        forall j | 0 <= j < i + 1 ensures !p(s[j]) {
          if j > 0 { assert s[j] == s[1..][j - 1]; }
        }
      }
    }
  }

  /** `p` selects nothing from a sequence none of whose elements satisfy it. */
  lemma {:induction false} FilterNone<T>(p: T -> bool, s: seq<T>)
    requires forall x :: x in s ==> !p(x)
    ensures Filter(p, s) == []
  {
    if s != [] {
      FilterNone(p, s[1..]);
    }
  }

  /** Position of the first occurrence of `x` in `s`. */
  function IndexOf<T(==)>(s: seq<T>, x: T): (i: nat)
    requires x in s
    ensures i < |s| && s[i] == x
    ensures forall j :: 0 <= j < i ==> s[j] != x
  {
    if s[0] == x then 0 else 1 + IndexOf(s[1..], x)
  }

  /** The distinct elements of `s` in order of first appearance (`Series.unique()`). */
  function Distinct<T(==)>(s: seq<T>): (r: seq<T>)
    ensures forall x :: x in r ==> x in s
    ensures forall x :: x in s ==> x in r
    ensures NoDuplicates(r)
  {
    if s == [] then []
    else
      var last := s[|s| - 1];
      var d := Distinct(s[..|s| - 1]);
      assert s == s[..|s| - 1] + [last];
      if last in d then d else d + [last]
  }

  /** The first occurrence of an element of a prefix lies in that prefix. */
  lemma IndexOfPrefix<T>(s: seq<T>, n: nat, x: T)
    requires n <= |s| && x in s[..n]
    ensures IndexOf(s, x) == IndexOf(s[..n], x) < n
  {
    var i := IndexOf(s[..n], x);
    assert s[i] == x;
  }

  /** `Distinct` lists the elements in the order in which they first appear. */
  lemma {:induction false} DistinctFirstAppearance<T>(s: seq<T>)
    ensures forall i, j :: 0 <= i < j < |Distinct(s)| ==>
      IndexOf(s, Distinct(s)[i]) < IndexOf(s, Distinct(s)[j])
  {
    if s != [] {
      var n := |s| - 1;
      var pre := s[..n];
      var d := Distinct(pre);
      DistinctFirstAppearance(pre);
      assert s == pre + [s[n]];
      forall x | x in d
        ensures IndexOf(s, x) == IndexOf(pre, x) < n
      {
        IndexOfPrefix(s, n, x);
      }
      var r := Distinct(s);
      if s[n] !in d {
        assert s[n] !in pre;
        assert IndexOf(s, s[n]) == n;
        assert r == d + [s[n]];
      }
      forall i, j | 0 <= i < j < |r|
        ensures IndexOf(s, r[i]) < IndexOf(s, r[j])
      {
        assert r[i] == d[i];
        if j < |d| {
          assert r[j] == d[j];
        }
      }
    }
  }
}
