/** Ordering of the active landmark pool by ascending variance. The pool is
    sorted with an unstable library sort under a strict "less variance"
    comparator, so the order among landmarks of equal variance is not
    determined; the model sorts by insertion and states what every
    admissible result shares. */
module Landmarks {
  import opened VioData

  /** The comparator: a ranks before b when its variance is strictly smaller. */
  predicate LessThanKey(a: Feature3D, b: Feature3D)
  {
    a.variance < b.variance
  }

  /** No landmark ranks before one that precedes it. */
  predicate SortedByVariance(s: seq<Feature3D>)
  {
    forall i, j :: 0 <= i < j < |s| ==> !LessThanKey(s[j], s[i])
  }

  /** The variances of a pool, in pool order. */
  function Variances(s: seq<Feature3D>): (r: seq<real>)
    ensures |r| == |s|
  {
    seq(|s|, i requires 0 <= i < |s| => s[i].variance)
  }

  predicate Ascending(r: seq<real>)
  {
    forall i, j :: 0 <= i < j < |r| ==> r[i] <= r[j]
  }

  /** Insert f into a sorted pool, in front of the first landmark that does
      not rank before it. */
  function InsertByVariance(f: Feature3D, s: seq<Feature3D>): (r: seq<Feature3D>)
    requires SortedByVariance(s)
    ensures |r| == |s| + 1 && (r[0] == f || (s != [] && r[0] == s[0]))
    ensures multiset(r) == multiset(s) + multiset{f}
    ensures SortedByVariance(r)
  {
    if s == [] || !LessThanKey(s[0], f) then
      [f] + s
    else
      var rest := InsertByVariance(f, s[1..]);
      assert s == [s[0]] + s[1..];
      assert !LessThanKey(rest[0], s[0]);
      [s[0]] + rest
  }

  /** A permutation of s, sorted by ascending variance. */
  function SortByVariance(s: seq<Feature3D>): (r: seq<Feature3D>)
    ensures multiset(r) == multiset(s)
    ensures SortedByVariance(r)
  {
    if s == [] then
      []
    else
      assert s == [s[0]] + s[1..];
      InsertByVariance(s[0], SortByVariance(s[1..]))
  }

  /** Sort the active landmark pool; nothing else in the filter changes. */
  function SortActive3DFeaturesByVariance(v: Vio): (r: Vio)
    ensures r == v.(active3DFeatures := r.active3DFeatures)
    ensures multiset(r.active3DFeatures) == multiset(v.active3DFeatures)
    ensures SortedByVariance(r.active3DFeatures)
  {
    v.(active3DFeatures := SortByVariance(v.active3DFeatures))
  }

  /** A pool sorted under the comparator lists its variances in ascending
      order, and conversely. */
  lemma SortedMeansAscendingVariances(s: seq<Feature3D>)
    ensures SortedByVariance(s) <==> Ascending(Variances(s))
  {
    assert forall i :: 0 <= i < |s| ==> Variances(s)[i] == s[i].variance;
  }

  lemma VariancesConcat(x: seq<Feature3D>, y: seq<Feature3D>)
    ensures Variances(x + y) == Variances(x) + Variances(y)
  {
    var l, r := Variances(x + y), Variances(x) + Variances(y);
    forall i | 0 <= i < |l|
      ensures l[i] == r[i]
    {
      if i >= |x| {
        assert (x + y)[i] == y[i - |x|];
      }
    }
  }

  /** Taking out the landmark at j takes it out of the pool's multiset. */
  lemma RemoveAt(t: seq<Feature3D>, j: int)
    requires 0 <= j < |t|
    ensures multiset(t[..j] + t[j + 1..]) == multiset(t) - multiset{t[j]}
  {
    assert t == t[..j] + [t[j]] + t[j + 1..];
  }

  /** Taking out the landmark at j takes its variance out of the variances. */
  lemma RemoveVarianceAt(t: seq<Feature3D>, j: int)
    requires 0 <= j < |t|
    ensures multiset(Variances(t)) == multiset(Variances(t[..j] + t[j + 1..])) + multiset{t[j].variance}
  {
    var before, after := Variances(t[..j]), Variances(t[j + 1..]);
    assert Variances(t) == before + [t[j].variance] + after by {
      assert t == t[..j] + [t[j]] + t[j + 1..];
      VariancesConcat(t[..j] + [t[j]], t[j + 1..]);
      VariancesConcat(t[..j], [t[j]]);
    }
    assert Variances(t[..j] + t[j + 1..]) == before + after by {
      VariancesConcat(t[..j], t[j + 1..]);
    }
  }

  /** Permuting a pool permutes its variances. */
  lemma {:induction false} PermutedVariances(s: seq<Feature3D>, t: seq<Feature3D>)
    requires multiset(s) == multiset(t)
    ensures multiset(Variances(s)) == multiset(Variances(t))
    decreases |s|
  {
    if s == [] {
      assert t == [] by { assert |multiset(t)| == 0; }
    } else {
      assert s[0] in multiset(t) by { assert s[0] in multiset(s); }
      var j :| 0 <= j < |t| && t[j] == s[0];
      var t' := t[..j] + t[j + 1..];
      RemoveAt(t, j);
      RemoveVarianceAt(t, j);
      DropFirst(s);
      PermutedVariances(s[1..], t');
      DropFirst(Variances(s));
      assert Variances(s)[1..] == Variances(s[1..]);
    }
  }

  /** Two ascending sequences holding the same values are equal. */
  lemma {:induction false} AscendingPermutationsEqual(a: seq<real>, b: seq<real>)
    requires Ascending(a) && Ascending(b) && multiset(a) == multiset(b)
    ensures a == b
    decreases |a|
  {
    if a != [] {
      assert |b| == |a| by { assert |multiset(a)| == |multiset(b)|; }
      SameLeast(a, b);
      DropFirst(a);
      DropFirst(b);
      AscendingPermutationsEqual(a[1..], b[1..]);
    }
  }

  lemma DropFirst<T>(a: seq<T>)
    requires a != []
    ensures multiset(a[1..]) == multiset(a) - multiset{a[0]}
  {
    assert a == [a[0]] + a[1..];
  }

  /** Ascending sequences holding the same values start with the same one. */
  lemma SameLeast(a: seq<real>, b: seq<real>)
    requires Ascending(a) && Ascending(b) && a != [] && b != [] && multiset(a) == multiset(b)
    ensures a[0] == b[0]
  {
    assert a[0] in multiset(b) && b[0] in multiset(a) by { assert a[0] in multiset(a) && b[0] in multiset(b); }
    var i :| 0 <= i < |a| && a[i] == b[0];
    var j :| 0 <= j < |b| && b[j] == a[0];
    assert a[0] <= a[i] && b[0] <= b[j];
  }

  /** Every sorted arrangement of a pool lists the same variances, whichever
      order the unstable sort leaves equal-variance landmarks in. */
  lemma SortedArrangementsAgree(s: seq<Feature3D>, t: seq<Feature3D>)
    requires multiset(s) == multiset(t) && SortedByVariance(s) && SortedByVariance(t)
    ensures Variances(s) == Variances(t)
  {
    SortedMeansAscendingVariances(s);
    SortedMeansAscendingVariances(t);
    PermutedVariances(s, t);
    AscendingPermutationsEqual(Variances(s), Variances(t));
  }

  /** Landmarks inserted with variances 0.8, 0.1, 0.5 come out as 0.1, 0.5,
      0.8 in every sorted arrangement, including the model's. */
  lemma ThreeLandmarkOrdering(a: Feature3D, b: Feature3D, c: Feature3D, t: seq<Feature3D>)
    requires a.variance == 0.8 && b.variance == 0.1 && c.variance == 0.5
    requires multiset(t) == multiset([a, b, c]) && SortedByVariance(t)
    ensures Variances(t) == [0.1, 0.5, 0.8]
  {
    var sorted := [b, c, a];
    assert multiset(sorted) == multiset([a, b, c]);
    assert SortedByVariance(sorted);
    SortedArrangementsAgree(sorted, t);
  }
}
