/** The angle-dependent property table of MaterialAngleDependentSpecular:
    two parallel lists (incidence angles, property values) that
    OutputPropertyValue sorts by angle with an exchange sort, keeping each
    (angle, value) pair together, and then interpolates linearly at a query
    angle clamped to a right angle. */
module PropertyTable {
  import opened Options

  /** gc::Pi. */
  const Pi: real := 3.141592653589793
  const HalfPi: real := 0.5 * Pi

  /** One row of the table: (incidence angle, property value). */
  type Knot = (real, real)

  /** The two parallel lists viewed as one list of pairs. */
  function Pairs(angles: seq<real>, values: seq<real>): (ps: seq<Knot>)
    requires |angles| == |values|
    ensures |ps| == |angles|
  {
    seq(|angles|, k requires 0 <= k < |angles| => (angles[k], values[k]))
  }

  ghost predicate Sorted(s: seq<Knot>) {
    forall p, q :: 0 <= p < q < |s| ==> s[p].0 <= s[q].0
  }

  /** The first `i` rows are sorted and none of them exceeds a later row. */
  ghost predicate SortedPrefix(s: seq<Knot>, i: nat) {
    && (forall p, q :: 0 <= p < q < i && q < |s| ==> s[p].0 <= s[q].0)
    && (forall p, q :: 0 <= p < i <= q < |s| ==> s[p].0 <= s[q].0)
  }

  /** Row `i` is no larger than rows i+1 .. j-1. */
  ghost predicate MinAt(s: seq<Knot>, i: nat, j: nat) {
    i < |s| && forall k :: i < k < j && k < |s| ==> s[i].0 <= s[k].0
  }

  ghost predicate AtLeast(lo: real, s: seq<Knot>) {
    forall k :: 0 <= k < |s| ==> lo <= s[k].0
  }

  function Swap(s: seq<Knot>, i: nat, j: nat): (r: seq<Knot>)
    requires i < |s| && j < |s|
    ensures |r| == |s| && r[i] == s[j] && r[j] == s[i]
    ensures forall k :: 0 <= k < |s| && k != i && k != j ==> r[k] == s[k]
    ensures multiset(r) == multiset(s)
  {
    s[i := s[j]][j := s[i]]
  }

  lemma AtLeastPreserved(lo: real, a: seq<Knot>, b: seq<Knot>)
    requires multiset(a) == multiset(b) && AtLeast(lo, b)
    ensures AtLeast(lo, a)
  {
    forall k | 0 <= k < |a| ensures lo <= a[k].0 {
      assert a[k] in multiset(b);
      var k' :| 0 <= k' < |b| && b[k'] == a[k];
    }
  }

  lemma SplitMultiset(s: seq<Knot>, i: nat)
    requires i <= |s|
    ensures multiset(s) == multiset(s[..i]) + multiset(s[i..])
  {
    assert s == s[..i] + s[i..];
  }

  /** One iteration of the source's inner `for j` loop: rows i and j are
      exchanged when row j has the smaller angle. */
  function ExchangeStep(s: seq<Knot>, i: nat, j: nat): (r: seq<Knot>)
    requires i < j < |s|
    ensures |r| == |s|
  {
    if s[j].0 < s[i].0 then Swap(s, i, j) else s
  }

  /** An exchange step leaves the first i rows alone, permutes the rows,
      and extends by one row the run over which row i is smallest. */
  lemma ExchangeStepProperties(s: seq<Knot>, i: nat, j: nat)
    requires i < j < |s|
    ensures forall k :: 0 <= k < i ==> ExchangeStep(s, i, j)[k] == s[k]
    ensures multiset(ExchangeStep(s, i, j)) == multiset(s)
    ensures MinAt(s, i, j) ==> MinAt(ExchangeStep(s, i, j), i, j + 1)
  {
  }

  /** The table after the inner loop has run for j = i+1 .. j-1. */
  function InnerPass(s: seq<Knot>, i: nat, j: nat): (r: seq<Knot>)
    requires i < j <= |s|
    decreases j
    ensures |r| == |s|
  {
    if j == i + 1 then s else ExchangeStep(InnerPass(s, i, j - 1), i, j - 1)
  }

  /** After the inner loop for j = i+1 .. j-1, rows before i are untouched,
      the rows are a permutation of the original ones, and row i holds a
      smallest angle of rows i .. j-1. */
  lemma {:induction false} InnerPassProperties(s: seq<Knot>, i: nat, j: nat)
    requires i < j <= |s|
    decreases j
    ensures forall k :: 0 <= k < i ==> InnerPass(s, i, j)[k] == s[k]
    ensures multiset(InnerPass(s, i, j)) == multiset(s)
    ensures MinAt(InnerPass(s, i, j), i, j)
  {
    if j > i + 1 {
      InnerPassProperties(s, i, j - 1);
      ExchangeStepProperties(InnerPass(s, i, j - 1), i, j - 1);
    }
  }

  /** A permutation that keeps the first i rows permutes the rest. */
  lemma SuffixPermuted(s: seq<Knot>, r: seq<Knot>, i: nat)
    requires i <= |s| == |r|
    requires forall k :: 0 <= k < i ==> r[k] == s[k]
    requires multiset(r) == multiset(s)
    ensures r[..i] == s[..i]
    ensures multiset(r[i..]) == multiset(s[i..])
  {
    assert r[..i] == s[..i];
    SplitMultiset(s, i);
    SplitMultiset(r, i);
    forall x ensures multiset(r[i..])[x] == multiset(s[i..])[x] {
      assert multiset(r)[x] == multiset(r[..i])[x] + multiset(r[i..])[x];
      assert multiset(s)[x] == multiset(s[..i])[x] + multiset(s[i..])[x];
    }
  }

  /** The outer loop of the exchange sort (the source's `for i` loop, which
      runs while i < |s| - 1). */
  function OuterPasses(s: seq<Knot>, i: nat): (r: seq<Knot>)
    requires i <= |s|
    decreases |s| - i
    ensures |r| == |s|
    ensures r[..i] == s[..i]
    ensures multiset(r[i..]) == multiset(s[i..])
    ensures SortedPrefix(s, i) ==> Sorted(r)
  {
    if i + 1 >= |s| then s
    else
      var t := InnerPass(s, i, |s|);
      InnerPassProperties(s, i, |s|);
      SuffixPermuted(s, t, i);
      OuterPassStep(s, i);
      var r := OuterPasses(t, i + 1);
      OuterPassSuffix(s, t, r, i);
      r
  }

  lemma OuterPassStep(s: seq<Knot>, i: nat)
    requires i + 1 < |s|
    ensures SortedPrefix(s, i) ==> SortedPrefix(InnerPass(s, i, |s|), i + 1)
  {
    var t := InnerPass(s, i, |s|);
    InnerPassProperties(s, i, |s|);
    SuffixPermuted(s, t, i);
    if SortedPrefix(s, i) {
      forall p | 0 <= p < i ensures AtLeast(s[p].0, t[i..]) {
        PrefixBoundsSuffix(s, i, p);
        AtLeastPreserved(s[p].0, t[i..], s[i..]);
      }
      ExtendSortedPrefix(s, t, i);
    }
  }

  lemma PrefixBoundsSuffix(s: seq<Knot>, i: nat, p: nat)
    requires SortedPrefix(s, i) && p < i <= |s|
    ensures AtLeast(s[p].0, s[i..])
  {
    forall k | 0 <= k < |s[i..]| ensures s[p].0 <= s[i..][k].0 {
      assert s[i..][k] == s[i + k];
    }
  }

  /** One more sorted row: row i is a minimum of the rest and every earlier
      row bounds the rest from below. */
  lemma ExtendSortedPrefix(s: seq<Knot>, t: seq<Knot>, i: nat)
    requires i < |t| == |s| && t[..i] == s[..i]
    requires SortedPrefix(s, i) && MinAt(t, i, |t|)
    requires forall p :: 0 <= p < i ==> AtLeast(s[p].0, t[i..])
    ensures SortedPrefix(t, i + 1)
  {
    forall p | 0 <= p < i ensures t[p] == s[p] {
      assert t[p] == t[..i][p];
    }
    forall p, q | 0 <= p < i < q < |t| ensures t[p].0 <= t[q].0 {
      assert AtLeast(s[p].0, t[i..]);
      assert t[q] == t[i..][q - i];
    }
    forall p | 0 <= p < i ensures t[p].0 <= t[i].0 {
      assert AtLeast(s[p].0, t[i..]);
      assert t[i] == t[i..][0];
    }
  }

  lemma OuterPassSuffix(s: seq<Knot>, t: seq<Knot>, r: seq<Knot>, i: nat)
    requires i + 1 <= |s| == |t| == |r|
    requires t[..i] == s[..i] && multiset(t[i..]) == multiset(s[i..])
    requires r[..i + 1] == t[..i + 1] && multiset(r[i + 1..]) == multiset(t[i + 1..])
    ensures r[..i] == s[..i] && multiset(r[i..]) == multiset(s[i..])
  {
    assert r[..i] == r[..i + 1][..i];
    assert t[..i] == t[..i + 1][..i];
    assert r[i..] == [r[i]] + r[i + 1..];
    assert t[i..] == [t[i]] + t[i + 1..];
    assert r[i] == r[..i + 1][i] == t[..i + 1][i] == t[i];
  }

  /** The table after the source's nested exchange loops. */
  function ExchangeSort(s: seq<Knot>): seq<Knot> {
    OuterPasses(s, 0)
  }

  /** The exchange sort leaves the angles non-decreasing and the multiset of
      (angle, value) pairs unchanged. */
  lemma ExchangeSortCorrect(s: seq<Knot>)
    ensures Sorted(ExchangeSort(s))
    ensures multiset(ExchangeSort(s)) == multiset(s)
  {
    var r := OuterPasses(s, 0);
    assert SortedPrefix(s, 0);
    assert r[0..] == r && s[0..] == s;
  }

  /** The query angle after "cannot be higher than 0.5 * Pi". */
  function Clamp(q: real): (r: real)
    ensures r <= HalfPi
    ensures q <= HalfPi ==> r == q
    ensures q >= HalfPi ==> r == HalfPi
  {
    if q > HalfPi then HalfPi else q
  }

  /** The index at which the scan stops: the first row whose angle is at
      least q, or |s| when there is none. */
  function FirstAtLeast(s: seq<Knot>, q: real): (k: nat)
    ensures k <= |s|
    ensures forall p :: 0 <= p < k ==> s[p].0 < q
    ensures k < |s| ==> q <= s[k].0
  {
    if s == [] then 0
    else if q <= s[0].0 then 0
    else 1 + FirstAtLeast(s[1..], q)
  }

  /** The stopping index is determined by its two properties. */
  lemma FirstAtLeastUnique(s: seq<Knot>, q: real, i: nat)
    requires i <= |s|
    requires forall p :: 0 <= p < i ==> s[p].0 < q
    requires i < |s| ==> q <= s[i].0
    ensures FirstAtLeast(s, q) == i
  {
  }

  /** Linear interpolation between two rows. */
  function Lerp(lo: Knot, hi: Knot, q: real): real
    requires lo.0 < hi.0
  {
    lo.1 + (q - lo.0) / (hi.0 - lo.0) * (hi.1 - lo.1)
  }

  /** The scan of OutputPropertyValue with the below-range case defined:
      0.0 when every angle is below q, the first value when the first row
      already reaches q, and otherwise the interpolation between the row
      that stops the scan and its predecessor. */
  function Interpolate(s: seq<Knot>, q: real): real {
    var k := FirstAtLeast(s, q);
    if k == |s| then 0.0
    else if k == 0 then s[0].1
    else Lerp(s[k - 1], s[k], q)
  }

  /** The property value OutputPropertyValue computes. */
  function PropertyValue(angles: seq<real>, values: seq<real>, q: real): real
    requires |angles| == |values|
  {
    Interpolate(ExchangeSort(Pairs(angles, values)), Clamp(q))
  }

  ghost predicate Between(r: real, a: real, b: real) {
    (a <= r <= b) || (b <= r <= a)
  }

  lemma ScaledBetween(t: real, d: real)
    requires 0.0 <= t <= 1.0
    ensures Between(t * d, 0.0, d)
  {
    if d >= 0.0 {
      assert t * d <= 1.0 * d;
    } else {
      assert t * (-d) <= 1.0 * (-d);
    }
  }

  lemma QuotientInUnitInterval(a: real, d: real)
    requires 0.0 < a <= d
    ensures 0.0 < a / d <= 1.0
  {
  }

  /** Between two rows, the interpolated value lies between their values,
      and it reaches the upper row's value at the upper row's angle. */
  lemma LerpBetween(lo: Knot, hi: Knot, q: real)
    requires lo.0 < q <= hi.0
    ensures Between(Lerp(lo, hi, q), lo.1, hi.1)
    ensures q == hi.0 ==> Lerp(lo, hi, q) == hi.1
  {
    var t := (q - lo.0) / (hi.0 - lo.0);
    QuotientInUnitInterval(q - lo.0, hi.0 - lo.0);
    ScaledBetween(t, hi.1 - lo.1);
  }

  /** When the scan stops at a row k >= 1, the predecessor's angle is below
      the query, the row's angle reaches it (so the denominator is not zero)
      and the result lies between the two rows' values. */
  lemma InterpolateBetweenKnots(s: seq<Knot>, q: real)
    requires 0 < FirstAtLeast(s, q) < |s|
    ensures var k := FirstAtLeast(s, q);
      && s[k - 1].0 < q <= s[k].0
      && Between(Interpolate(s, q), s[k - 1].1, s[k].1)
      && (q == s[k].0 ==> Interpolate(s, q) == s[k].1)
  {
    var k := FirstAtLeast(s, q);
    LerpBetween(s[k - 1], s[k], q);
  }

  /** In a sorted table, the lookup at the angle of a row returns that row's
      value, for every row whose angle differs from its predecessor's. */
  lemma InterpolateAtKnot(s: seq<Knot>, k: nat)
    requires Sorted(s) && k < |s|
    requires k == 0 || s[k - 1].0 < s[k].0
    ensures Interpolate(s, s[k].0) == s[k].1
  {
    forall p | 0 <= p < k ensures s[p].0 < s[k].0 {
      assert s[p].0 <= s[k - 1].0;
    }
    FirstAtLeastUnique(s, s[k].0, k);
    if k > 0 {
      LerpBetween(s[k - 1], s[k], s[k].0);
    }
  }

  /** A query at or below the first angle gets the first row's value: the
      defined answer where the source reads index -1. */
  lemma InterpolateBelowTable(s: seq<Knot>, q: real)
    requires |s| > 0 && q <= s[0].0
    ensures Interpolate(s, q) == s[0].1
  {
    FirstAtLeastUnique(s, q, 0);
  }

  /** A query above every angle gives 0.0 (the scan never breaks). */
  lemma InterpolateAboveTable(s: seq<Knot>, q: real)
    requires forall k :: 0 <= k < |s| ==> s[k].0 < q
    ensures Interpolate(s, q) == 0.0
  {
    FirstAtLeastUnique(s, q, |s|);
  }

  ghost predicate ValuesIn(s: seq<Knot>, lo: real, hi: real) {
    forall k :: 0 <= k < |s| ==> lo <= s[k].1 <= hi
  }

  /** With every value in [0, 1], so is every lookup. */
  lemma InterpolateInUnitRange(s: seq<Knot>, q: real)
    requires ValuesIn(s, 0.0, 1.0)
    ensures 0.0 <= Interpolate(s, q) <= 1.0
  {
    var k := FirstAtLeast(s, q);
    if 0 < k < |s| {
      InterpolateBetweenKnots(s, q);
    }
  }

  lemma ValuesInPreserved(a: seq<Knot>, b: seq<Knot>, lo: real, hi: real)
    requires multiset(a) == multiset(b) && ValuesIn(b, lo, hi)
    ensures ValuesIn(a, lo, hi)
  {
    forall k | 0 <= k < |a| ensures lo <= a[k].1 <= hi {
      assert a[k] in multiset(b);
      var k' :| 0 <= k' < |b| && b[k'] == a[k];
    }
  }

  /** Reflectance bound: with every table value in [0, 1], whatever the order
      of the rows and the query, the property value is in [0, 1]. */
  lemma PropertyValueInUnitRange(angles: seq<real>, values: seq<real>, q: real)
    requires |angles| == |values|
    requires forall k :: 0 <= k < |values| ==> 0.0 <= values[k] <= 1.0
    ensures 0.0 <= PropertyValue(angles, values, q) <= 1.0
  {
    var ps := Pairs(angles, values);
    ExchangeSortCorrect(ps);
    ValuesInPreserved(ExchangeSort(ps), ps, 0.0, 1.0);
    InterpolateInUnitRange(ExchangeSort(ps), Clamp(q));
  }

  /** The two indices the source's scan reads, (i-1, i), when it stops at
      row i; None when it never stops.  This is the code as written. */
  function ReadIndicesAsWritten(s: seq<Knot>, q: real): (r: Option<(int, int)>)
    ensures r.Some? ==> r.value.1 == r.value.0 + 1
  {
    var k := FirstAtLeast(s, q);
    if k == |s| then None else Some((k - 1, k))
  }

  /** As written, the scan reads index -1 exactly when the first row already
      reaches the query. */
  lemma AsWrittenReadsBeforeStart(s: seq<Knot>, q: real)
    requires |s| > 0
    ensures ReadIndicesAsWritten(s, q) == Some((-1, 0)) <==> q <= s[0].0
  {
  }

  /** A ray at normal incidence (acos(1) = 0) on a table whose first row is
      at angle 0 makes the source read index -1. */
  lemma NormalIncidenceReadsBeforeStart()
    ensures ReadIndicesAsWritten(ExchangeSort(Pairs([0.0, HalfPi], [1.0, 0.0])), Clamp(0.0)) == Some((-1, 0))
  {
    var ps := Pairs([0.0, HalfPi], [1.0, 0.0]);
    assert ps == [(0.0, 1.0), (HalfPi, 0.0)];
    var s := ExchangeSort(ps);
    ExchangeSortCorrect(ps);
    assert s[0] in multiset(ps);
    assert 0.0 <= s[0].0;
    AsWrittenReadsBeforeStart(s, Clamp(0.0));
  }

  /** The nested exchange loops of OutputPropertyValue, run on the two
      parallel arrays: every exchange moves an angle and its value together. */
  method SortByAngle(angles: array<real>, values: array<real>)
    requires angles.Length == values.Length && angles != values
    modifies angles, values
    ensures Pairs(angles[..], values[..]) == ExchangeSort(Pairs(old(angles[..]), old(values[..])))
    ensures Sorted(Pairs(angles[..], values[..]))
    ensures multiset(Pairs(angles[..], values[..])) == multiset(Pairs(old(angles[..]), old(values[..])))
  {
    var m := angles.Length;
    ghost var sorted := ExchangeSort(Pairs(angles[..], values[..]));
    ExchangeSortCorrect(Pairs(angles[..], values[..]));
    var i := 0;
    while i < m - 1
      invariant 0 <= i <= m
      invariant OuterPasses(Pairs(angles[..], values[..]), i) == sorted
    {
      ExchangeLoop(angles, values, i, Pairs(angles[..], values[..]));
      i := i + 1;
    }
  }

  /** The inner `for j` loop for one value of i. */
  method ExchangeLoop(angles: array<real>, values: array<real>, i: nat, ghost start: seq<Knot>)
    requires angles.Length == values.Length && angles != values && i + 1 < angles.Length
    requires start == Pairs(angles[..], values[..])
    modifies angles, values
    ensures Pairs(angles[..], values[..]) == InnerPass(start, i, angles.Length)
  {
    var m := angles.Length;
    var j := i + 1;
    while j < m
      invariant i < j <= m
      invariant Pairs(angles[..], values[..]) == InnerPass(start, i, j)
    {
      ghost var cur := InnerPass(start, i, j);
      ExchangeIfSmaller(angles, values, i, j);
      assert InnerPass(start, i, j + 1) == ExchangeStep(cur, i, j);
      j := j + 1;
    }
  }

  /** One step of the inner loop: rows i and j are exchanged, angle and value
      alike, when row j has the smaller angle. */
  method ExchangeIfSmaller(angles: array<real>, values: array<real>, i: nat, j: nat)
    requires angles.Length == values.Length && angles != values && i < j < angles.Length
    modifies angles, values
    ensures Pairs(angles[..], values[..]) == ExchangeStep(Pairs(old(angles[..]), old(values[..])), i, j)
  {
    ghost var before := Pairs(angles[..], values[..]);
    if angles[j] < angles[i] {
      var aux1 := angles[j];
      var aux2 := values[j];
      angles[j] := angles[i];
      values[j] := values[i];
      angles[i] := aux1;
      values[i] := aux2;
      assert Pairs(angles[..], values[..]) == Swap(before, i, j);
    }
  }

  /** The scan of OutputPropertyValue over the sorted arrays, with the
      below-range case answered by the first value (see Interpolate). */
  method ScanInterpolate(angles: array<real>, values: array<real>, incidenceAngle: real)
    returns (propValue: real)
    requires angles.Length == values.Length
    ensures propValue == Interpolate(Pairs(angles[..], values[..]), incidenceAngle)
  {
    ghost var s := Pairs(angles[..], values[..]);
    propValue := 0.0;
    var i := 0;
    while i < angles.Length
      invariant 0 <= i <= angles.Length
      invariant forall p :: 0 <= p < i ==> angles[p] < incidenceAngle
    {
      if angles[i] >= incidenceAngle {
        FirstAtLeastUnique(s, incidenceAngle, i);
        if i == 0 {
          propValue := values[0];
        } else {
          var interpol := (incidenceAngle - angles[i - 1]) / (angles[i] - angles[i - 1]);
          propValue := values[i - 1] + interpol * (values[i] - values[i - 1]);
        }
        return;
      }
      i := i + 1;
    }
    FirstAtLeastUnique(s, incidenceAngle, i);
  }

  /** OutputPropertyValue: sort copies of the two lists by angle, clamp the
      query to a right angle and interpolate. */
  method OutputPropertyValue(incidenceAnglesList: seq<real>, valuesList: seq<real>, incidenceAngle: real)
    returns (propValue: real)
    requires |incidenceAnglesList| == |valuesList|
    ensures propValue == PropertyValue(incidenceAnglesList, valuesList, incidenceAngle)
  {
    var m := |incidenceAnglesList|;
    var angles := new real[m](k requires 0 <= k < m => incidenceAnglesList[k]);
    var values := new real[m](k requires 0 <= k < m => valuesList[k]);
    assert angles[..] == incidenceAnglesList && values[..] == valuesList;
    SortByAngle(angles, values);
    var q := incidenceAngle;
    if q > 0.5 * Pi {
      q := 0.5 * Pi;
    }
    propValue := ScanInterpolate(angles, values, q);
  }
}
