/** The JavaScript array methods the application relies on (`find`, `findIndex`,
    `filter`), stated once over sequences and used by every other module. */
module JsArray {

  datatype Option<+T> = None | Some(value: T)

  /** `Array.prototype.findIndex`: the position of the first element that
      satisfies `p`, or `None` where JavaScript answers -1. `find` is the
      element at that position. */
  function FindIndex<T>(s: seq<T>, p: T -> bool): (r: Option<nat>)
    ensures r.Some? ==> r.value < |s| && p(s[r.value])
    ensures r.Some? ==> forall j :: 0 <= j < r.value ==> !p(s[j])
    ensures r.None? <==> forall j :: 0 <= j < |s| ==> !p(s[j])
  {
    if s == [] then None
    else if p(s[0]) then Some(0)
    else match FindIndex(s[1..], p)
      case None => None
      case Some(i) => Some(i + 1)
  }

  /** `Array.prototype.filter`: the elements that satisfy `p`, in their order. */
  function Filter<T>(s: seq<T>, p: T -> bool): (r: seq<T>)
    ensures |r| <= |s|
    ensures forall i :: 0 <= i < |r| ==> p(r[i])
    ensures |r| == |s| <==> forall i :: 0 <= i < |s| ==> p(s[i])
  {
    if s == [] then []
    else (if p(s[0]) then [s[0]] else []) + Filter(s[1..], p)
  }

  /** `filter` drops exactly the elements that fail `p`. */
  lemma {:induction false} FilterMembers<T>(s: seq<T>, p: T -> bool)
    ensures forall i :: 0 <= i < |Filter(s, p)| ==> Filter(s, p)[i] in s
    ensures forall i :: 0 <= i < |s| && p(s[i]) ==> s[i] in Filter(s, p)
  {
    if s != [] {
      FilterMembers(s[1..], p);
      var r := Filter(s, p);
      var tail := Filter(s[1..], p);
      forall i | 0 <= i < |r| ensures r[i] in s {
        if p(s[0]) && i == 0 {
        } else {
          var k := if p(s[0]) then i - 1 else i;
          assert r[i] == tail[k];
          assert tail[k] in s[1..];
        }
      }
      forall i | 0 <= i < |s| && p(s[i]) ensures s[i] in r {
        if i > 0 {
          assert s[i] == s[1..][i - 1];
        }
      }
    }
  }

  /** Filtering keeps the relative order: it distributes over concatenation. */
  lemma {:induction false} FilterConcat<T>(a: seq<T>, b: seq<T>, p: T -> bool)
    ensures Filter(a + b, p) == Filter(a, p) + Filter(b, p)
  {
    if a == [] {
      assert a + b == b;
    } else {
      assert (a + b)[1..] == a[1..] + b;
      FilterConcat(a[1..], b, p);
    }
  }

  /** A filter that every element passes returns the sequence itself. */
  lemma {:induction false} FilterKeepsAll<T>(s: seq<T>, p: T -> bool)
    requires forall i :: 0 <= i < |s| ==> p(s[i])
    ensures Filter(s, p) == s
  {
    if s != [] {
      FilterKeepsAll(s[1..], p);
    }
  }

  /** Filtering twice with the same predicate is filtering once. */
  lemma FilterIdempotent<T>(s: seq<T>, p: T -> bool)
    ensures Filter(Filter(s, p), p) == Filter(s, p)
  {
    var r := Filter(s, p);
    FilterKeepsAll(r, p);
  }

  /** Two predicates that agree on every element filter alike. */
  lemma {:induction false} FilterCongruent<T>(s: seq<T>, p: T -> bool, q: T -> bool)
    requires forall i :: 0 <= i < |s| ==> p(s[i]) == q(s[i])
    ensures Filter(s, p) == Filter(s, q)
  {
    if s != [] {
      FilterCongruent(s[1..], p, q);
    }
  }

  /** Every pair of distinct positions satisfies `differ`. */
  ghost predicate PairwiseDistinct<T>(s: seq<T>, differ: (T, T) -> bool)
  {
    forall i, j :: 0 <= i < j < |s| ==> differ(s[i], s[j])
  }

  /** Filtering keeps a pairwise property of the elements (it only drops elements). */
  lemma {:induction false} FilterKeepsPairwise<T>(s: seq<T>, p: T -> bool, differ: (T, T) -> bool)
    requires PairwiseDistinct(s, differ)
    ensures PairwiseDistinct(Filter(s, p), differ)
  {
    if s != [] {
      var tail := Filter(s[1..], p);
      FilterMembers(s[1..], p);
      assert PairwiseDistinct(s[1..], differ) by {
        forall i, j | 0 <= i < j < |s[1..]| ensures differ(s[1..][i], s[1..][j]) {
          assert s[1..][i] == s[i + 1] && s[1..][j] == s[j + 1];
        }
      }
      FilterKeepsPairwise(s[1..], p, differ);
      if p(s[0]) {
        var r := [s[0]] + tail;
        assert r == Filter(s, p);
        forall i, j | 0 <= i < j < |r| ensures differ(r[i], r[j]) {
          if i == 0 {
            assert r[j] == tail[j - 1] && tail[j - 1] in tail;
            var k :| 0 <= k < |s[1..]| && s[1..][k] == tail[j - 1];
            assert s[k + 1] == r[j];
          } else {
            assert r[i] == tail[i - 1] && r[j] == tail[j - 1];
          }
        }
      }
    }
  }
}
