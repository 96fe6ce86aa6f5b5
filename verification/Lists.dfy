/** Filtering and paging of sequences, as a SQL query or an array filter does. */
module Lists {

  function Filter<T(!new)>(xs: seq<T>, p: T -> bool): (r: seq<T>)
    ensures |r| <= |xs|
    ensures forall x :: x in r <==> x in xs && p(x)
  {
    if xs == [] then [] else (if p(xs[0]) then [xs[0]] else []) + Filter(xs[1..], p)
  }

  lemma {:induction false} FilterConcat<T(!new)>(xs: seq<T>, ys: seq<T>, p: T -> bool)
    ensures Filter(xs + ys, p) == Filter(xs, p) + Filter(ys, p)
  {
    if xs == [] {
      assert xs + ys == ys;
    } else {
      assert (xs + ys)[1..] == xs[1..] + ys;
      FilterConcat(xs[1..], ys, p);
    }
  }

  lemma {:induction false} FilterAll<T(!new)>(xs: seq<T>, p: T -> bool)
    requires forall x :: x in xs ==> p(x)
    ensures Filter(xs, p) == xs
  {
    if xs != [] {
      FilterAll(xs[1..], p);
      assert xs == [xs[0]] + xs[1..];
    }
  }

  lemma {:induction false} FilterNone<T(!new)>(xs: seq<T>, p: T -> bool)
    requires forall x :: x in xs ==> !p(x)
    ensures Filter(xs, p) == []
  {
    if xs != [] {
      FilterNone(xs[1..], p);
    }
  }

  ghost predicate Increasing(at: seq<nat>) {
    forall i, j :: 0 <= i < j < |at| ==> at[i] < at[j]
  }

  ghost predicate ComesFrom<T>(before: seq<T>, after: seq<T>, at: seq<nat>) {
    |at| == |after| && forall i :: 0 <= i < |at| ==> at[i] < |before| && after[i] == before[at[i]]
  }

  ghost predicate Covers<T(!new)>(before: seq<T>, keep: T -> bool, at: seq<nat>) {
    forall k: nat :: k < |before| ==> (k in at <==> keep(before[k]))
  }

  // `after` is `before` without the elements that are not to be kept, in the same order: for some
  // places `at`, after[i] stood at at[i], and those are the places of the elements to keep.
  ghost predicate Kept<T(!new)>(before: seq<T>, after: seq<T>, keep: T -> bool) {
    exists at :: Increasing(at) && ComesFrom(before, after, at) && Covers(before, keep, at)
  }

  ghost function Shifted(at: seq<nat>): (r: seq<nat>)
    ensures |r| == |at| && forall i :: 0 <= i < |at| ==> r[i] == at[i] + 1
  {
    seq(|at|, i requires 0 <= i < |at| => at[i] + 1)
  }

  lemma InShifted(at: seq<nat>, k: nat)
    ensures k in Shifted(at) <==> k > 0 && k - 1 in at
  {
    if k > 0 && k - 1 in at {
      var i :| 0 <= i < |at| && at[i] == k - 1;
      assert Shifted(at)[i] == k;
    }
  }

  lemma PrependIncreasing(at: seq<nat>)
    requires Increasing(at)
    ensures Increasing(Shifted(at)) && Increasing([0] + Shifted(at))
  {
  }

  lemma PrependComesFrom<T>(x: T, before: seq<T>, after: seq<T>, at: seq<nat>)
    requires ComesFrom(before, after, at)
    ensures ComesFrom([x] + before, after, Shifted(at)) && ComesFrom([x] + before, [x] + after, [0] + Shifted(at))
  {
  }

  lemma PrependCovers<T(!new)>(x: T, before: seq<T>, keep: T -> bool, at: seq<nat>)
    requires Covers(before, keep, at)
    ensures Covers([x] + before, keep, if keep(x) then [0] + Shifted(at) else Shifted(at))
  {
    forall k: nat | k < |[x] + before|
      ensures k in (if keep(x) then [0] + Shifted(at) else Shifted(at)) <==> keep(([x] + before)[k])
    {
      InShifted(at, k);
      if k > 0 { assert ([x] + before)[k] == before[k - 1]; }
    }
  }

  lemma KeepOrSkip<T(!new)>(x: T, before: seq<T>, after: seq<T>, keep: T -> bool)
    requires Kept(before, after, keep)
    ensures Kept([x] + before, if keep(x) then [x] + after else after, keep)
  {
    var at :| Increasing(at) && ComesFrom(before, after, at) && Covers(before, keep, at);
    PrependIncreasing(at);
    PrependComesFrom(x, before, after, at);
    PrependCovers(x, before, keep, at);
  }

  lemma KeptEmpty<T(!new)>(keep: T -> bool)
    ensures Kept<T>([], [], keep)
  {
    var at: seq<nat> := [];
    assert Increasing(at) && ComesFrom<T>([], [], at) && Covers<T>([], keep, at);
  }

  // Filtering keeps exactly the elements wanted, in their order.
  lemma {:induction false} FilterKeeps<T(!new)>(xs: seq<T>, p: T -> bool, keep: T -> bool)
    requires forall x :: x in xs ==> p(x) == keep(x)
    ensures Kept(xs, Filter(xs, p), keep)
  {
    if xs == [] {
      KeptEmpty(keep);
    } else {
      var x, rest := xs[0], xs[1..];
      FilterKeeps(rest, p, keep);
      KeepOrSkip(x, rest, Filter(rest, p), keep);
      assert xs == [x] + rest && x in xs;
      assert Filter(xs, p) == if keep(x) then [x] + Filter(rest, p) else Filter(rest, p);
    }
  }

  // A filter that splits a sequence in two keeps one side of it.
  lemma FilterCut<T(!new)>(xs: seq<T>, p: T -> bool, c: nat)
    requires c <= |xs|
    ensures (forall i :: 0 <= i < |xs| ==> (p(xs[i]) <==> i < c)) ==> Filter(xs, p) == xs[..c]
    ensures (forall i :: 0 <= i < |xs| ==> (p(xs[i]) <==> i >= c)) ==> Filter(xs, p) == xs[c..]
  {
    assert xs == xs[..c] + xs[c..];
    FilterConcat(xs[..c], xs[c..], p);
    if forall i :: 0 <= i < |xs| ==> (p(xs[i]) <==> i < c) {
      FilterAll(xs[..c], p);
      FilterNone(xs[c..], p);
    }
    if forall i :: 0 <= i < |xs| ==> (p(xs[i]) <==> i >= c) {
      FilterNone(xs[..c], p);
      FilterAll(xs[c..], p);
    }
  }

  lemma {:induction false} FilterFilter<T(!new)>(xs: seq<T>, p: T -> bool, q: T -> bool)
    ensures Filter(Filter(xs, p), q) == Filter(Filter(xs, q), p)
  {
    if xs != [] {
      FilterFilter(xs[1..], p, q);
      FilterConcat(if p(xs[0]) then [xs[0]] else [], Filter(xs[1..], p), q);
      FilterConcat(if q(xs[0]) then [xs[0]] else [], Filter(xs[1..], q), p);
    }
  }

  // LIMIT and OFFSET.
  function Page<T>(xs: seq<T>, offset: nat, limit: nat): (r: seq<T>)
    ensures |r| <= limit
    ensures forall x :: x in r ==> x in xs
    ensures |r| < limit ==> |xs| <= offset + |r|
    ensures forall i :: offset <= i < |xs| && i < offset + limit ==> xs[i] in r
  {
    if offset >= |xs| then []
    else if offset + limit >= |xs| then assert forall i :: offset <= i < |xs| ==> xs[i] == xs[offset..][i - offset]; xs[offset..]
    else assert forall i :: offset <= i < offset + limit ==> xs[i] == xs[offset..offset + limit][i - offset]; xs[offset..offset + limit]
  }

  lemma PageIsSlice<T>(xs: seq<T>, offset: nat, limit: nat)
    requires offset <= |xs|
    ensures offset + |Page(xs, offset, limit)| <= |xs|
    ensures Page(xs, offset, limit) == xs[offset..offset + |Page(xs, offset, limit)|]
    ensures offset + |Page(xs, offset, limit)| == if offset + limit <= |xs| then offset + limit else |xs|
  {
  }

  // Row i of the page is row offset + i, and the page ends at the limit or with the rows.
  lemma PageRows<T>(xs: seq<T>, offset: nat, limit: nat)
    ensures |Page(xs, offset, limit)| == if |xs| <= offset then 0 else if limit <= |xs| - offset then limit else |xs| - offset
    ensures forall i :: 0 <= i < |Page(xs, offset, limit)| ==> Page(xs, offset, limit)[i] == xs[offset + i]
  {
  }

  function Min(a: nat, b: nat): nat {
    if a <= b then a else b
  }
}
