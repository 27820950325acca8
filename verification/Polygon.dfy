/** Zone validation (tvt_edge/geometry.py): its verdict belongs to the polygon, not to
    the point its list starts with nor to the direction it is drawn in. */
module Polygon {
  import opened Options
  import opened Geometry

  predicate Normalized(p: Point) {
    0.0 <= p.x <= 1.0 && 0.0 <= p.y <= 1.0
  }

  function Succ(i: nat, n: nat): nat
    requires i < n
  {
    if i + 1 == n then 0 else i + 1
  }

  /** Edges i and j, of which edge i runs from point i to the next, share no point index and cross. */
  ghost predicate Conflict(points: seq<Point>, i: nat, j: nat)
    requires i < |points| && j < |points|
  {
    var n := |points|;
    && i != j && Succ(i, n) != j && Succ(j, n) != i
    && Crosses(points[i], points[Succ(i, n)], points[j], points[Succ(j, n)])
  }

  ghost predicate SelfIntersects(points: seq<Point>) {
    exists i, j | 0 <= i < |points| && 0 <= j < |points| :: Conflict(points, i, j)
  }

  /** Twice the signed area one edge sweeps. */
  function Term(a: Point, b: Point): real {
    a.x * b.y - b.x * a.y
  }

  function Terms(points: seq<Point>): (r: seq<real>)
    ensures |r| == |points|
    ensures forall i :: 0 <= i < |r| ==> r[i] == Term(points[i], points[Succ(i, |points|)])
  {
    seq(|points|, i requires 0 <= i < |points| => Term(points[i], points[Succ(i, |points|)]))
  }

  function Sum(terms: seq<real>): real {
    if terms == [] then 0.0 else Sum(terms[..|terms| - 1]) + terms[|terms| - 1]
  }

  /** Twice the signed area. */
  function Area2(points: seq<Point>): real {
    Sum(Terms(points))
  }

  ghost predicate AllNormalized(points: seq<Point>) {
    forall p :: p in points ==> Normalized(p)
  }

  function Decide(normalized: bool, count: nat, crossing: bool, area: real): Result<(), Flaw> {
    if !normalized then Err(OutOfRange)
    else if count < 3 then Err(TooFewPoints)
    else if crossing then Err(SelfIntersecting)
    else if area == 0.0 then Err(NoArea)
    else Ok(())
  }

  ghost function Verdict(points: seq<Point>): Result<(), Flaw> {
    Decide(AllNormalized(points), |points|, SelfIntersects(points), Area2(points))
  }

  // ---------------------------------------------------------------- rotation

  function Rotated(points: seq<Point>): seq<Point>
    requires points != []
  {
    points[1..] + [points[0]]
  }

  lemma {:induction false} SumConcat(a: seq<real>, b: seq<real>)
    ensures Sum(a + b) == Sum(a) + Sum(b)
  {
    if b == [] {
      assert a + b == a;
    } else {
      var n := |b| - 1;
      SumConcat(a, b[..n]);
      assert (a + b)[..|a| + n] == a + b[..n];
    }
  }

  lemma SumOne(x: real)
    ensures Sum([x]) == x
  {
    assert [x][..0] == [];
  }

  lemma RotatedAt(points: seq<Point>, i: nat)
    requires i < |points|
    ensures |Rotated(points)| == |points|
    ensures Rotated(points)[i] == points[Succ(i, |points|)]
  {
  }

  lemma RotatedArea(points: seq<Point>)
    requires points != []
    ensures Area2(Rotated(points)) == Area2(points)
  {
    var t := Terms(points);
    forall i | 0 <= i < |points| ensures Terms(Rotated(points))[i] == (t[1..] + [t[0]])[i] {
      RotatedAt(points, i);
      RotatedAt(points, Succ(i, |points|));
    }
    assert Terms(Rotated(points)) == t[1..] + [t[0]];
    assert t == [t[0]] + t[1..];
    SumConcat(t[1..], [t[0]]);
    SumConcat([t[0]], t[1..]);
  }

  lemma RotatedConflict(points: seq<Point>, i: nat, j: nat)
    requires i < |points| && j < |points|
    ensures |Rotated(points)| == |points|
    ensures Conflict(Rotated(points), i, j) <==> Conflict(points, Succ(i, |points|), Succ(j, |points|))
  {
    var n := |points|;
    RotatedAt(points, i);
    RotatedAt(points, Succ(i, n));
    RotatedAt(points, j);
    RotatedAt(points, Succ(j, n));
  }

  function Pred(i: nat, n: nat): nat
    requires i < n
  {
    if i == 0 then n - 1 else i - 1
  }

  lemma RotatedIntersects(points: seq<Point>)
    requires points != []
    ensures SelfIntersects(Rotated(points)) <==> SelfIntersects(points)
  {
    var n, r := |points|, Rotated(points);
    if SelfIntersects(r) {
      var i: nat, j: nat :| i < n && j < n && Conflict(r, i, j);
      RotatedConflict(points, i, j);
    }
    if SelfIntersects(points) {
      var i: nat, j: nat :| i < n && j < n && Conflict(points, i, j);
      RotatedConflict(points, Pred(i, n), Pred(j, n));
    }
  }

  /** Starting the point list at the next point changes nothing. */
  lemma RotationKeepsVerdict(points: seq<Point>)
    requires points != []
    ensures Verdict(Rotated(points)) == Verdict(points)
  {
    assert points == [points[0]] + points[1..];
    RotatedIntersects(points);
    RotatedArea(points);
  }

  lemma RotatedAgain(points: seq<Point>, k: nat)
    requires k < |points|
    ensures Rotated(points[k..] + points[..k]) == points[k + 1..] + points[..k + 1]
  {
  }

  /** Starting it anywhere changes nothing. */
  lemma {:induction false} AnyStartKeepsVerdict(points: seq<Point>, k: nat)
    requires k <= |points|
    ensures Verdict(points[k..] + points[..k]) == Verdict(points)
  {
    if k == 0 {
      assert points[0..] + points[..0] == points;
    } else {
      AnyStartKeepsVerdict(points, k - 1);
      RotationKeepsVerdict(points[k - 1..] + points[..k - 1]);
      RotatedAgain(points, k - 1);
    }
  }

  // ---------------------------------------------------------------- reversal

  function Reversed(points: seq<Point>): (r: seq<Point>)
    ensures |r| == |points| && forall i :: 0 <= i < |r| ==> r[i] == points[|points| - 1 - i]
  {
    seq(|points|, i requires 0 <= i < |points| => points[|points| - 1 - i])
  }

  /** The edge of the original that edge i of the reversal runs along. */
  function Mirror(i: nat, n: nat): nat
    requires i < n
  {
    if i + 1 == n then n - 1 else n - 2 - i
  }

  lemma MirrorIndex(i: nat, n: nat)
    requires i < n
    ensures Mirror(i, n) < n && Mirror(Mirror(i, n), n) == i
    ensures n - 1 - i == Succ(Mirror(i, n), n) && n - 1 - Succ(i, n) == Mirror(i, n)
  {
  }

  lemma MirrorEdge(points: seq<Point>, i: nat)
    requires i < |points|
    ensures var n := |points|;
            && Mirror(Mirror(i, n), n) == i
            && Reversed(points)[i] == points[Succ(Mirror(i, n), n)]
            && Reversed(points)[Succ(i, n)] == points[Mirror(i, n)]
  {
    var n, r := |points|, Reversed(points);
    MirrorIndex(i, n);
    assert r[i] == points[n - 1 - i];
    assert r[Succ(i, n)] == points[n - 1 - Succ(i, n)];
  }

  lemma ReversedConflict(points: seq<Point>, i: nat, j: nat)
    requires i < |points| && j < |points| && Conflict(points, i, j)
    ensures Conflict(Reversed(points), Mirror(i, |points|), Mirror(j, |points|))
  {
    var n := |points|;
    MirrorEdge(points, Mirror(i, n));
    MirrorEdge(points, Mirror(j, n));
    CrossesIsSymmetric(points[i], points[Succ(i, n)], points[j], points[Succ(j, n)]);
  }

  function Negated(terms: seq<real>): (r: seq<real>)
    ensures |r| == |terms| && forall i :: 0 <= i < |r| ==> r[i] == -terms[|terms| - 1 - i]
  {
    if terms == [] then [] else [-terms[|terms| - 1]] + Negated(terms[..|terms| - 1])
  }

  lemma {:induction false} NegatedSum(terms: seq<real>)
    ensures Sum(Negated(terms)) == -Sum(terms)
  {
    if terms != [] {
      var n := |terms| - 1;
      NegatedSum(terms[..n]);
      SumOne(-terms[n]);
      SumConcat([-terms[n]], Negated(terms[..n]));
    }
  }

  lemma ReversedTerm(points: seq<Point>, i: nat)
    requires i < |points|
    ensures Terms(Reversed(points))[i] == -Terms(points)[Mirror(i, |points|)]
  {
    MirrorEdge(points, i);
  }

  lemma ReversedArea(points: seq<Point>)
    requires points != []
    ensures Area2(Reversed(points)) == -Area2(points)
  {
    var n := |points| - 1;
    var t, t' := Terms(points), Terms(Reversed(points));
    forall i | 0 <= i < |points| ensures t'[i] == (Negated(t[..n]) + [-t[n]])[i] {
      ReversedTerm(points, i);
    }
    assert t' == Negated(t[..n]) + [-t[n]];
    NegatedSum(t[..n]);
    SumConcat(Negated(t[..n]), [-t[n]]);
    SumOne(-t[n]);
  }

  lemma ReversedTwice(points: seq<Point>)
    ensures Reversed(Reversed(points)) == points
  {
  }

  lemma ReversedIntersects(points: seq<Point>)
    requires SelfIntersects(points)
    ensures SelfIntersects(Reversed(points))
  {
    var n := |points|;
    var i: nat, j: nat :| i < n && j < n && Conflict(points, i, j);
    ReversedConflict(points, i, j);
  }

  lemma ReversedNormalized(points: seq<Point>)
    requires AllNormalized(points)
    ensures AllNormalized(Reversed(points))
  {
  }

  /** Drawing it the other way round changes nothing. */
  lemma ReversalKeepsVerdict(points: seq<Point>)
    ensures Verdict(Reversed(points)) == Verdict(points)
  {
    var r := Reversed(points);
    ReversedTwice(points);
    if AllNormalized(points) { ReversedNormalized(points); }
    if AllNormalized(r) { ReversedNormalized(r); }
    if SelfIntersects(points) { ReversedIntersects(points); }
    if SelfIntersects(r) { ReversedIntersects(r); }
    if points != [] { ReversedArea(points); }
  }

  // ---------------------------------------------------------------- the check itself

  method ValidatePolygon(points: seq<Point>) returns (r: Result<(), Flaw>)
    ensures r == Verdict(points)
  {
    var k := 0;
    while k < |points|
      invariant 0 <= k <= |points| && forall i :: 0 <= i < k ==> Normalized(points[i])
    {
      if !Normalized(points[k]) {
        return Err(OutOfRange);
      }
      k := k + 1;
    }
    if |points| < 3 {
      return Err(TooFewPoints);
    }
    var crossing := FindCrossing(points);
    if crossing {
      return Err(SelfIntersecting);
    }
    var sum := SignedArea2(points);
    var area := (if sum < 0.0 then -sum else sum) / 2.0;
    if area == 0.0 {
      return Err(NoArea);
    }
    return Ok(());
  }

  method SignedArea2(points: seq<Point>) returns (sum: real)
    ensures sum == Area2(points)
  {
    var count := |points|;
    sum := 0.0;
    var index := 0;
    while index < count
      invariant 0 <= index <= count && sum == Sum(Terms(points)[..index])
    {
      NextIndex(index, count);
      var next := points[(index + 1) % count];
      assert Terms(points)[..index + 1][..index] == Terms(points)[..index];
      sum := sum + (points[index].x * next.y - next.x * points[index].y);
      index := index + 1;
    }
    assert Terms(points)[..count] == Terms(points);
  }

  lemma NextIndex(i: nat, n: nat)
    requires i < n
    ensures (i + 1) % n == Succ(i, n)
  {
    if i + 1 < n {
      assert (i + 1) % n == i + 1;
    }
  }

  /** Each pair of edges is looked at once, from the lower index. */
  method FindCrossing(points: seq<Point>) returns (found: bool)
    ensures found <==> SelfIntersects(points)
  {
    var count := |points|;
    var index := 0;
    while index < count
      invariant 0 <= index <= count
      invariant forall i, j :: 0 <= i < index && i < j < count ==> !Conflict(points, i, j)
    {
      NextIndex(index, count);
      var a, b := points[index], points[(index + 1) % count];
      var other := index + 1;
      while other < count
        invariant index < other <= count
        invariant forall j :: index < j < other ==> !Conflict(points, index, j)
      {
        NextIndex(other, count);
        if {index, (index + 1) % count} !! {other, (other + 1) % count} {
          if Crosses(a, b, points[other], points[(other + 1) % count]) {
            assert Conflict(points, index, other);
            return true;
          }
        }
        other := other + 1;
      }
      index := index + 1;
    }
    forall i, j | 0 <= i < count && 0 <= j < count ensures !Conflict(points, i, j) {
      if j < i {
        CrossesIsSymmetric(points[i], points[Succ(i, count)], points[j], points[Succ(j, count)]);
        assert !Conflict(points, j, i);
      }
    }
    return false;
  }

  // ---------------------------------------------------------------- what is accepted

  /** Sides i and j are not parallel and have a point inside both in common. */
  ghost predicate SidesMeet(points: seq<Point>, i: nat, j: nat)
    requires i < |points| && j < |points|
  {
    var a, b, c, d := points[i], points[Succ(i, |points|)], points[j], points[Succ(j, |points|)];
    Cross(a, b, c, d) != 0.0 && exists s, t :: MeetAt(a, b, c, d, s, t)
  }

  /** Sides that share a corner cross nowhere else, and no side crosses itself. */
  lemma NeighboursDoNotCross(a: Point, b: Point, c: Point)
    ensures !Crosses(a, b, a, b) && !Crosses(a, b, b, c) && !Crosses(b, c, a, b)
  {
    assert Orientation(a, b, a) == 0.0 && Orientation(a, b, b) == 0.0;
    assert Orientation(b, c, b) == 0.0;
  }

  lemma MeetingIsConflict(points: seq<Point>, i: nat, j: nat)
    requires i < |points| && j < |points|
    ensures SidesMeet(points, i, j) <==> Conflict(points, i, j)
  {
    var n := |points|;
    CrossesMeansMeetInside(points[i], points[Succ(i, n)], points[j], points[Succ(j, n)]);
    NeighboursDoNotCross(points[i], points[Succ(i, n)], points[Succ(j, n)]);
    NeighboursDoNotCross(points[j], points[Succ(j, n)], points[Succ(i, n)]);
  }

  /** A polygon is accepted exactly if its corners lie in the unit square, there are three of
      them or more, no two sides meet inside both, and it has an area. */
  lemma AcceptedExactly(points: seq<Point>)
    ensures Verdict(points).Ok? <==>
              && (forall p :: p in points ==> 0.0 <= p.x <= 1.0 && 0.0 <= p.y <= 1.0)
              && |points| >= 3
              && (forall i, j | 0 <= i < |points| && 0 <= j < |points| :: !SidesMeet(points, i, j))
              && Area2(points) != 0.0
  {
    forall i, j | 0 <= i < |points| && 0 <= j < |points| ensures SidesMeet(points, i, j) <==> Conflict(points, i, j) {
      MeetingIsConflict(points, i, j);
    }
  }

  lemma ShoelaceOfThree(a: Point, b: Point, c: Point)
    ensures Area2([a, b, c]) == Orientation(a, b, c)
  {
    var points, terms := [a, b, c], Terms([a, b, c]);
    assert terms[..2][..1] == terms[..1] && terms[..1][..0] == [];
    assert Sum(terms[..1]) == Term(a, b);
    assert Sum(terms[..2]) == Term(a, b) + Term(b, c);
    ShoelaceTerms(a, b, c);
  }

  lemma ShoelaceTerms(a: Point, b: Point, c: Point)
    ensures Term(a, b) + Term(b, c) + Term(c, a) == Orientation(a, b, c)
  {
  }

  /** Three corners in the unit square make a polygon exactly if they are not in line. */
  lemma TriangleVerdict(a: Point, b: Point, c: Point)
    requires Normalized(a) && Normalized(b) && Normalized(c)
    ensures Verdict([a, b, c]).Ok? <==> Orientation(a, b, c) != 0.0
  {
    ShoelaceOfThree(a, b, c);
    var points := [a, b, c];
    forall i, j | 0 <= i < 3 && 0 <= j < 3 ensures !Conflict(points, i, j) {
    }
  }
}
