/** Order-preserving filtering and mapping, the models of `Array.prototype.filter` and `map`. */
module Seqs {

  function Filter<T>(s: seq<T>, p: T -> bool): seq<T> {
    if s == [] then [] else
      var rest := Filter(s[1..], p);
      if p(s[0]) then [s[0]] + rest else rest
  }

  /**
   * `r` is the subsequence of `s` at the positions `idx`, which strictly
   * increase: the order of `s` is kept and each position is taken once.
   */
  ghost predicate Picks<T>(s: seq<T>, r: seq<T>, idx: seq<nat>) {
    && |idx| == |r|
    && (forall k :: 0 <= k < |idx| ==> idx[k] < |s| && r[k] == s[idx[k]])
    && (forall j, k :: 0 <= j < k < |idx| ==> idx[j] < idx[k])
  }

  /**
   * The filtered sequence keeps exactly the elements that satisfy `p`, in
   * their order in `s` and with their multiplicity (it picks every position
   * whose element satisfies `p`, and only those), and is empty exactly when
   * no element does.
   */
  lemma {:induction false} FilterIs<T>(s: seq<T>, p: T -> bool)
    ensures var r := Filter(s, p);
            && |r| <= |s|
            && (forall i :: 0 <= i < |r| ==> r[i] in s && p(r[i]))
            && (forall i :: 0 <= i < |s| && p(s[i]) ==> s[i] in r)
            && (exists idx :: Picks(s, r, idx) && forall i :: 0 <= i < |s| && p(s[i]) ==> i in idx)
            && (|r| == 0 <==> forall i :: 0 <= i < |s| ==> !p(s[i]))
  {
    var idx := FilterPicks(s, p);
    if s != [] {
      FilterIs(s[1..], p);
      assert forall i :: 1 <= i < |s| ==> s[i] == s[1..][i - 1];
    }
  }

  /** The positions `Filter` picks: every position whose element satisfies `p`, in increasing order. */
  lemma {:induction false} FilterPicks<T>(s: seq<T>, p: T -> bool) returns (idx: seq<nat>)
    ensures Picks(s, Filter(s, p), idx)
    ensures forall i :: 0 <= i < |s| && p(s[i]) ==> i in idx
    decreases |s|
  {
    if s == [] {
      return [];
    }
    var tail := Filter(s[1..], p);
    var rest := FilterPicks(s[1..], p);
    var shifted := PicksShift(s, tail, rest);
    forall i | 1 <= i < |s| && p(s[i]) ensures i in shifted {
      assert s[1..][i - 1] == s[i];
      assert i - 1 in rest;
    }
    if p(s[0]) {
      idx := [0] + shifted;
      PicksCons(s, tail, shifted);
    } else {
      idx := shifted;
    }
  }

  /** Positions picked from `s[1..]`, moved up by one, pick the same elements from `s`. */
  lemma PicksShift<T>(s: seq<T>, r: seq<T>, rest: seq<nat>) returns (shifted: seq<nat>)
    requires s != [] && Picks(s[1..], r, rest)
    ensures Picks(s, r, shifted) && |shifted| == |rest|
    ensures forall j :: 0 <= j < |rest| ==> shifted[j] == rest[j] + 1
    ensures forall j :: j in rest ==> j + 1 in shifted
  {
    shifted := seq(|rest|, k requires 0 <= k < |rest| => rest[k] + 1);
    forall k | 0 <= k < |rest| ensures r[k] == s[shifted[k]] {
      assert s[1..][rest[k]] == s[rest[k] + 1];
    }
    forall j | j in rest ensures j + 1 in shifted {
      var k :| 0 <= k < |rest| && rest[k] == j;
      assert shifted[k] == j + 1;
    }
  }

  /** Picking position 0 ahead of positions above 0 picks `s[0]` ahead of their elements. */
  lemma PicksCons<T>(s: seq<T>, r: seq<T>, idx: seq<nat>)
    requires s != [] && Picks(s, r, idx) && forall j :: 0 <= j < |idx| ==> 0 < idx[j]
    ensures Picks(s, [s[0]] + r, [0] + idx)
  {
    var r', idx' := [s[0]] + r, [0] + idx;
    assert forall k :: 0 < k < |idx'| ==> idx'[k] == idx[k - 1] && r'[k] == r[k - 1];
  }

  /**
   * Filtering by `p` and then by `q` picks, in increasing order, every
   * position of `s` whose element satisfies both.
   */
  lemma {:induction false} FilterTwicePicks<T>(s: seq<T>, p: T -> bool, q: T -> bool)
    ensures exists idx :: Picks(s, Filter(Filter(s, p), q), idx) &&
                          forall i :: 0 <= i < |s| && p(s[i]) && q(s[i]) ==> i in idx
  {
    var m := Filter(s, p);
    var i1 := FilterPicks(s, p);
    var i2 := FilterPicks(m, q);
    var idx := seq(|i2|, k requires 0 <= k < |i2| => i1[i2[k]]);
    assert Picks(s, Filter(m, q), idx);
    forall i | 0 <= i < |s| && p(s[i]) && q(s[i]) ensures i in idx {
      var j :| 0 <= j < |i1| && i1[j] == i;
      assert m[j] == s[i];
      var k :| 0 <= k < |i2| && i2[k] == j;
      assert idx[k] == i;
    }
  }

  /** Filtering one more element at the end filters it alone. */
  lemma {:induction false} FilterSnoc<T>(s: seq<T>, x: T, p: T -> bool)
    ensures Filter(s + [x], p) == Filter(s, p) + (if p(x) then [x] else [])
  {
    if s != [] {
      assert (s + [x])[1..] == s[1..] + [x];
      FilterSnoc(s[1..], x, p);
    }
  }

  /** `f` applied to the elements of `s` that satisfy `p`, in order (`filter` then `map`). */
  function FilterMap<T, U>(s: seq<T>, p: T --> bool, f: T --> U): (r: seq<U>)
    requires forall k :: 0 <= k < |s| ==> p.requires(s[k]) && f.requires(s[k])
    ensures |r| <= |s|
    decreases |s|
  {
    if s == [] then []
    else
      var init, last := s[..|s| - 1], s[|s| - 1];
      assert forall k :: 0 <= k < |init| ==> init[k] == s[k];
      FilterMap(init, p, f) + (if p(last) then [f(last)] else [])
  }

  /** Every element of the result is the image of an element that satisfies `p`. */
  lemma {:induction false} FilterMapOnly<T, U>(s: seq<T>, p: T --> bool, f: T --> U, n: nat)
    requires forall k :: 0 <= k < |s| ==> p.requires(s[k]) && f.requires(s[k])
    requires n < |FilterMap(s, p, f)|
    ensures exists k :: 0 <= k < |s| && p(s[k]) && FilterMap(s, p, f)[n] == f(s[k])
    decreases |s|
  {
    var init := s[..|s| - 1];
    assert forall k :: 0 <= k < |init| ==> init[k] == s[k];
    if n < |FilterMap(init, p, f)| {
      FilterMapOnly(init, p, f, n);
      var k :| 0 <= k < |init| && p(init[k]) && FilterMap(init, p, f)[n] == f(init[k]);
      assert init[k] == s[k];
    } else {
      assert p(s[|s| - 1]) && FilterMap(s, p, f)[n] == f(s[|s| - 1]);
    }
  }

  /** The image of every element that satisfies `p` is in the result. */
  lemma {:induction false} FilterMapEvery<T, U>(s: seq<T>, p: T --> bool, f: T --> U, k: nat)
    requires forall j :: 0 <= j < |s| ==> p.requires(s[j]) && f.requires(s[j])
    requires k < |s| && p(s[k])
    ensures f(s[k]) in FilterMap(s, p, f)
    decreases |s|
  {
    var init := s[..|s| - 1];
    assert forall j :: 0 <= j < |init| ==> init[j] == s[j];
    if k < |init| {
      assert init[k] == s[k];
      FilterMapEvery(init, p, f, k);
    }
  }

  /** The result is empty exactly when no element satisfies `p`. */
  lemma {:induction false} FilterMapEmpty<T, U>(s: seq<T>, p: T --> bool, f: T --> U)
    requires forall k :: 0 <= k < |s| ==> p.requires(s[k]) && f.requires(s[k])
    ensures FilterMap(s, p, f) == [] <==> forall k :: 0 <= k < |s| ==> !p(s[k])
    decreases |s|
  {
    if s != [] {
      var init := s[..|s| - 1];
      assert forall j :: 0 <= j < |init| ==> init[j] == s[j];
      FilterMapEmpty(init, p, f);
    }
  }

  /** `f` applied to every element of `s`, in order. */
  function Map<T, U>(s: seq<T>, f: T --> U): seq<U>
    requires forall k :: 0 <= k < |s| ==> f.requires(s[k])
    decreases |s|
  {
    if s == [] then []
    else
      var init := s[..|s| - 1];
      assert forall k :: 0 <= k < |init| ==> init[k] == s[k];
      Map(init, f) + [f(s[|s| - 1])]
  }

  /** The mapped sequence has one image per element, at the same index. */
  lemma {:induction false} MapIs<T, U>(s: seq<T>, f: T --> U)
    requires forall k :: 0 <= k < |s| ==> f.requires(s[k])
    ensures |Map(s, f)| == |s|
    ensures forall k :: 0 <= k < |s| ==> Map(s, f)[k] == f(s[k])
    decreases |s|
  {
    if s != [] {
      var init := s[..|s| - 1];
      assert forall k :: 0 <= k < |init| ==> init[k] == s[k];
      MapIs(init, f);
    }
  }
}
