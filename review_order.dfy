/**
 * Review reordering in the `getDetails` callback
 * (app/components/RestaurantList.tsx:65-72): `place.reviews` is sorted in
 * place with a comparator that puts reviews tagged `zh` or `zh-TW` ahead of
 * all others and calls every other pair equal. Because ECMA-262 requires
 * `Array.prototype.sort` to be stable, the result is a stable partition.
 */
module ReviewOrder {
  import opened Wrappers
  import opened Places

  /** The comparator's test: the review is tagged `zh-TW` or `zh`. */
  predicate IsZh(r: Review) {
    r.language == Some("zh-TW") || r.language == Some("zh")
  }

  /** The source's comparator: negative when `a` must come first, positive
      when `b` must, zero when the two are in the same group. */
  function CompareReviews(a: Review, b: Review): (c: int)
    ensures c < 0 <==> IsZh(a) && !IsZh(b)
    ensures c > 0 <==> !IsZh(a) && IsZh(b)
  {
    if IsZh(a) && !IsZh(b) then -1
    else if !IsZh(a) && IsZh(b) then 1
    else 0
  }

  /** The `zh`/`zh-TW` reviews of `s`, in their order in `s`. */
  function ZhReviews(s: seq<Review>): (r: seq<Review>)
    ensures |r| <= |s|
  {
    if s == [] then []
    else ZhReviews(s[..|s| - 1]) + (if IsZh(s[|s| - 1]) then [s[|s| - 1]] else [])
  }

  /** The other reviews of `s`, in their order in `s`. */
  function OtherReviews(s: seq<Review>): (r: seq<Review>)
    ensures |r| <= |s|
  {
    if s == [] then []
    else OtherReviews(s[..|s| - 1]) + (if IsZh(s[|s| - 1]) then [] else [s[|s| - 1]])
  }

  lemma {:induction false} SplitPermutes(s: seq<Review>)
    ensures multiset(ZhReviews(s)) + multiset(OtherReviews(s)) == multiset(s)
  {
    if s != [] {
      var t, x := s[..|s| - 1], s[|s| - 1];
      SplitPermutes(t);
      assert s == t + [x];
      AppendOne(t, x);
      assert multiset(ZhReviews(s)) + multiset(OtherReviews(s))
          == multiset(ZhReviews(t)) + multiset(OtherReviews(t)) + multiset{x};
    }
  }

  lemma {:induction false} FiltersKeepGroups(s: seq<Review>)
    ensures forall k :: 0 <= k < |ZhReviews(s)| ==> IsZh(ZhReviews(s)[k])
    ensures forall k :: 0 <= k < |OtherReviews(s)| ==> !IsZh(OtherReviews(s)[k])
  {
    if s != [] {
      FiltersKeepGroups(s[..|s| - 1]);
    }
  }

  /** The two filters split the reviews: each keeps only its own group,
      and together they keep every review. */
  lemma FiltersSeparate(s: seq<Review>)
    ensures forall k :: 0 <= k < |ZhReviews(s)| ==> IsZh(ZhReviews(s)[k])
    ensures forall k :: 0 <= k < |OtherReviews(s)| ==> !IsZh(OtherReviews(s)[k])
    ensures multiset(ZhReviews(s)) + multiset(OtherReviews(s)) == multiset(s)
  {
    FiltersKeepGroups(s);
    SplitPermutes(s);
  }

  /** The order the callback leaves the reviews in. */
  function ZhFirst(s: seq<Review>): seq<Review> {
    ZhReviews(s) + OtherReviews(s)
  }

  /** No pair is out of order under the comparator: every `zh`/`zh-TW`
      review precedes every other review. */
  ghost predicate ZhAhead(s: seq<Review>) {
    forall i, j :: 0 <= i < j < |s| ==> CompareReviews(s[i], s[j]) <= 0
  }

  lemma AppendOne(s: seq<Review>, x: Review)
    ensures ZhReviews(s + [x]) == ZhReviews(s) + (if IsZh(x) then [x] else [])
    ensures OtherReviews(s + [x]) == OtherReviews(s) + (if IsZh(x) then [] else [x])
  {
    assert (s + [x])[..|s|] == s;
  }

  lemma {:induction false} AppendAll(s: seq<Review>, t: seq<Review>)
    ensures ZhReviews(s + t) == ZhReviews(s) + ZhReviews(t)
    ensures OtherReviews(s + t) == OtherReviews(s) + OtherReviews(t)
  {
    if t == [] {
      assert s + t == s;
    } else {
      var t' := t[..|t| - 1];
      var x := t[|t| - 1];
      assert t == t' + [x];
      assert s + t == (s + t') + [x];
      AppendAll(s, t');
      AppendOne(s + t', x);
      AppendOne(t', x);
      var zx, ox := if IsZh(x) then [x] else [], if IsZh(x) then [] else [x];
      calc {
        ZhReviews(s + t);
        ZhReviews(s + t') + zx;
        (ZhReviews(s) + ZhReviews(t')) + zx;
        ZhReviews(s) + (ZhReviews(t') + zx);
        ZhReviews(s) + ZhReviews(t);
      }
      calc {
        OtherReviews(s + t);
        OtherReviews(s + t') + ox;
        (OtherReviews(s) + OtherReviews(t')) + ox;
        OtherReviews(s) + (OtherReviews(t') + ox);
        OtherReviews(s) + OtherReviews(t);
      }
    }
  }

  /** A sequence all of one group filters to itself and to nothing. */
  lemma {:induction false} FilterUniform(s: seq<Review>, zh: bool)
    requires forall k :: 0 <= k < |s| ==> IsZh(s[k]) == zh
    ensures ZhReviews(s) == (if zh then s else [])
    ensures OtherReviews(s) == (if zh then [] else s)
  {
    if s != [] {
      var t, x := s[..|s| - 1], s[|s| - 1];
      FilterUniform(t, zh);
      assert s == t + [x];
      assert IsZh(x) == zh;
      assert ZhReviews(s) == ZhReviews(t) + (if zh then [x] else []);
      assert OtherReviews(s) == OtherReviews(t) + (if zh then [] else [x]);
    }
  }

  /** The reordering is a permutation of the reviews. */
  lemma ZhFirstPermutes(s: seq<Review>)
    ensures multiset(ZhFirst(s)) == multiset(s)
  {
    FiltersSeparate(s);
  }

  /** The reordering puts every `zh`/`zh-TW` review ahead of every other one. */
  lemma ZhFirstOrdered(s: seq<Review>)
    ensures ZhAhead(ZhFirst(s))
  {
    var zh, other := ZhReviews(s), OtherReviews(s);
    FiltersSeparate(s);
    var r := zh + other;
    forall i, j | 0 <= i < j < |r| ensures CompareReviews(r[i], r[j]) <= 0 {
      if i < |zh| {
        assert IsZh(r[i]);
      } else {
        assert r[j] == other[j - |zh|];
      }
    }
  }

  /** The reordering keeps the relative order inside each of the two groups. */
  lemma ZhFirstStable(s: seq<Review>)
    ensures ZhReviews(ZhFirst(s)) == ZhReviews(s)
    ensures OtherReviews(ZhFirst(s)) == OtherReviews(s)
  {
    AppendAll(ZhReviews(s), OtherReviews(s));
    FiltersSeparate(s);
    FilterUniform(ZhReviews(s), true);
    FilterUniform(OtherReviews(s), false);
  }

  /** Sorting again changes nothing: a list the callback has reordered is
      already in its final order. */
  lemma ZhFirstIdempotent(s: seq<Review>)
    ensures ZhFirst(ZhFirst(s)) == ZhFirst(s)
  {
    ZhFirstStable(s);
  }

  /** One pass of the insertion sort: `a[i]` moves left past the entries the
      comparator ranks after it, that is, past the non-`zh` block when it is
      itself a `zh` review. */
  method InsertReview(a: array<Review>, i: nat, ghost zh: seq<Review>, ghost other: seq<Review>)
    requires i < a.Length
    requires forall k :: 0 <= k < |zh| ==> IsZh(zh[k])
    requires forall k :: 0 <= k < |other| ==> !IsZh(other[k])
    requires a[..i] == zh + other
    modifies a
    ensures a[..i + 1] == if IsZh(old(a[i])) then zh + [old(a[i])] + other
                          else zh + other + [old(a[i])]
    ensures forall k :: i < k < a.Length ==> a[k] == old(a[k])
  {
    ghost var w := zh + other;
    assert forall k :: 0 <= k < i ==> a[k] == w[k] by {
      forall k | 0 <= k < i ensures a[k] == w[k] { assert a[..i][k] == a[k]; }
    }
    var x := a[i];
    var j := i;
    while j > 0 && CompareReviews(a[j - 1], x) > 0
      invariant 0 <= j <= i
      invariant !IsZh(x) ==> j == i
      invariant IsZh(x) ==> |zh| <= j
      invariant forall k :: 0 <= k < j ==> a[k] == w[k]
      invariant forall k :: j < k <= i ==> a[k] == w[k - 1]
      invariant forall k :: i < k < a.Length ==> a[k] == old(a[k])
    {
      a[j] := a[j - 1];
      j := j - 1;
    }
    a[j] := x;
    ghost var r := if IsZh(x) then zh + [x] + other else zh + other + [x];
    assert j == |zh| || j == i;
    forall k | 0 <= k <= i ensures a[k] == r[k] {
      if k < j {
        assert a[k] == w[k];
      } else if k > j {
        assert a[k] == w[k - 1];
      }
    }
    assert a[..i + 1] == r;
  }

  /** Reordering a list with one more review at its end. */
  lemma ZhFirstSnoc(s: seq<Review>, x: Review)
    ensures IsZh(x) ==> ZhFirst(s + [x]) == ZhReviews(s) + [x] + OtherReviews(s)
    ensures !IsZh(x) ==> ZhFirst(s + [x]) == ZhReviews(s) + OtherReviews(s) + [x]
  {
    AppendOne(s, x);
  }

  /** `place.reviews.sort(...)`: an insertion sort with the source's
      comparator, which like the engine's sort is stable. */
  method SortReviews(a: array<Review>)
    modifies a
    ensures a[..] == ZhFirst(old(a[..]))
  {
    ghost var s := a[..];
    var i := 0;
    while i < a.Length
      invariant 0 <= i <= a.Length
      invariant a[..i] == ZhFirst(s[..i])
      invariant forall k :: i <= k < a.Length ==> a[k] == s[k]
    {
      ghost var before := s[..i];
      assert s[..i + 1] == before + [s[i]];
      ZhFirstSnoc(before, s[i]);
      FiltersSeparate(before);
      InsertReview(a, i, ZhReviews(before), OtherReviews(before));
      i := i + 1;
    }
    assert s[..a.Length] == s;
    assert a[..] == a[..a.Length];
  }
}
