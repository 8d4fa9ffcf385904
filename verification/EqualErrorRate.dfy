/**
 The equal error rate: a sweep over thresholds between the distinct scores, and the point where the false-accept and
 false-reject curves, joined by straight lines, meet. Scores are reals.
 */
module EqualErrorRate {
  import opened Wrappers

  datatype MetricError = BinaryMetricInputInvalid | ZipLengthsDiffer

  /** Labels are 0 and 1 and both occur. */
  predicate ValidInputs(labels: seq<int>, scores: seq<real>) {
    && |labels| == |scores| >= 2
    && (forall i :: 0 <= i < |labels| ==> labels[i] == 0 || labels[i] == 1)
    && 0 in labels && 1 in labels
  }

  // ---------------------------------------------------------------- distinct scores

  ghost predicate Ascending(s: seq<real>) {
    forall i, j :: 0 <= i < j < |s| ==> s[i] < s[j]
  }

  function InsertUnique(s: seq<real>, x: real): seq<real> {
    if s == [] then [x]
    else if x < s[0] then [x] + s
    else if x == s[0] then s
    else [s[0]] + InsertUnique(s[1..], x)
  }

  /** The library function: the distinct scores in ascending order. */
  function Unique(scores: seq<real>): seq<real> {
    if scores == [] then [] else InsertUnique(Unique(scores[..|scores| - 1]), scores[|scores| - 1])
  }

  lemma {:induction false} InsertKeeps(s: seq<real>, x: real)
    requires Ascending(s)
    ensures Ascending(InsertUnique(s, x))
    ensures forall y :: y in InsertUnique(s, x) <==> y in s || y == x
  {
    if s != [] {
      assert s == [s[0]] + s[1..];
      InsertKeeps(s[1..], x);
      AscendingCons(x, s);
      AscendingCons(s[0], InsertUnique(s[1..], x));
    }
  }

  lemma AscendingCons(x: real, s: seq<real>)
    requires Ascending(s)
    ensures (forall y :: y in s ==> x < y) ==> Ascending([x] + s)
  {
    if forall y :: y in s ==> x < y {
      forall i, j | 0 <= i < j < |s| + 1 ensures ([x] + s)[i] < ([x] + s)[j] {
        assert ([x] + s)[j] == s[j - 1] && s[j - 1] in s;
      }
    }
  }

  lemma {:induction false} UniqueKeeps(scores: seq<real>)
    ensures Ascending(Unique(scores))
    ensures forall y :: y in Unique(scores) <==> y in scores
  {
    if scores != [] {
      var init, last := scores[..|scores| - 1], scores[|scores| - 1];
      assert scores == init + [last];
      UniqueKeeps(init);
      InsertKeeps(Unique(init), last);
    }
  }

  /** Ascending sequences are determined by their elements. */
  lemma {:induction false} AscendingSame(a: seq<real>, b: seq<real>)
    requires Ascending(a) && Ascending(b)
    requires forall x :: x in a <==> x in b
    ensures a == b
  {
    assert a != [] ==> a[0] in a;
    assert b != [] ==> b[0] in b;
    if a != [] {
      assert a[0] in a && a[0] in b;
      assert b[0] in b && b[0] in a;
      assert a[0] == b[0];
      assert a == [a[0]] + a[1..] && b == [b[0]] + b[1..];
      forall x ensures x in a[1..] <==> x in b[1..] {
        if x in a[1..] { assert x in b; }
        if x in b[1..] { assert x in a; }
      }
      AscendingSame(a[1..], b[1..]);
    }
  }

  // ---------------------------------------------------------------- thresholds

  function Margin(u: seq<real>): real
    requires u != []
  {
    if u[|u| - 1] - u[0] > 1.0 then u[|u| - 1] - u[0] else 1.0
  }

  /** One below all distinct scores, one between every two of them, one above. */
  function Threshold(u: seq<real>, k: nat): real
    requires u != [] && k <= |u|
  {
    if k == 0 then u[0] - Margin(u)
    else if k == |u| then u[|u| - 1] + Margin(u)
    else (u[k - 1] + u[k]) / 2.0
  }

  /** A threshold separates the distinct scores by rank. */
  lemma ThresholdRank(u: seq<real>, k: nat, j: nat)
    requires Ascending(u) && u != [] && k <= |u| && j < |u|
    ensures u[j] >= Threshold(u, k) <==> j >= k
    ensures u[j] != Threshold(u, k)
  {
    if 0 < k < |u| {
      assert u[k - 1] < u[k];
      if j < k { assert j == k - 1 || u[j] < u[k - 1]; } else { assert j == k || u[k] < u[j]; }
    } else {
      assert j == 0 || u[0] < u[j];
      assert j == |u| - 1 || u[j] < u[|u| - 1];
    }
  }

  // ---------------------------------------------------------------- rates

  /** Samples of a label at or above the threshold. */
  function CountAtLeast(labels: seq<int>, scores: seq<real>, kind: int, t: real): nat
    requires |labels| == |scores|
  {
    if labels == [] then 0
    else
      var n := |labels| - 1;
      CountAtLeast(labels[..n], scores[..n], kind, t) + if labels[n] == kind && scores[n] >= t then 1 else 0
  }

  function CountBelow(labels: seq<int>, scores: seq<real>, kind: int, t: real): nat
    requires |labels| == |scores|
  {
    if labels == [] then 0
    else
      var n := |labels| - 1;
      CountBelow(labels[..n], scores[..n], kind, t) + if labels[n] == kind && scores[n] < t then 1 else 0
  }

  function Count(labels: seq<int>, kind: int): nat {
    if labels == [] then 0
    else Count(labels[..|labels| - 1], kind) + if labels[|labels| - 1] == kind then 1 else 0
  }

  lemma {:induction false} CountPositive(labels: seq<int>, kind: int)
    ensures Count(labels, kind) > 0 <==> kind in labels
  {
    if labels != [] {
      assert labels == labels[..|labels| - 1] + [labels[|labels| - 1]];
      CountPositive(labels[..|labels| - 1], kind);
    }
  }

  lemma {:induction false} CountsAdd(labels: seq<int>, scores: seq<real>, kind: int, t: real)
    requires |labels| == |scores|
    ensures CountAtLeast(labels, scores, kind, t) + CountBelow(labels, scores, kind, t) == Count(labels, kind)
  {
    if labels != [] {
      var n := |labels| - 1;
      CountsAdd(labels[..n], scores[..n], kind, t);
    }
  }

  /** Counts depend only on which side of the threshold each sample falls. */
  lemma {:induction false} CountsAgree(labels: seq<int>, a: seq<real>, b: seq<real>, kind: int, t: real, t': real)
    requires |labels| == |a| == |b|
    requires forall i :: 0 <= i < |a| ==> (a[i] >= t <==> b[i] >= t')
    ensures CountAtLeast(labels, a, kind, t) == CountAtLeast(labels, b, kind, t')
  {
    if labels != [] {
      var n := |labels| - 1;
      CountsAgree(labels[..n], a[..n], b[..n], kind, t, t');
    }
  }

  /** Raising the threshold loses nothing below it. */
  lemma {:induction false} CountsFall(labels: seq<int>, scores: seq<real>, kind: int, t: real, t': real)
    requires |labels| == |scores| && t <= t'
    ensures CountAtLeast(labels, scores, kind, t) >= CountAtLeast(labels, scores, kind, t')
  {
    if labels != [] {
      var n := |labels| - 1;
      CountsFall(labels[..n], scores[..n], kind, t, t');
    }
  }

  /** And it loses a sample that lies between. */
  lemma {:induction false} CountsFallStrictly(labels: seq<int>, scores: seq<real>, t: real, t': real, i: nat)
    requires |labels| == |scores| && i < |scores| && t <= scores[i] < t'
    ensures CountAtLeast(labels, scores, labels[i], t) > CountAtLeast(labels, scores, labels[i], t')
  {
    var n := |labels| - 1;
    if i == n {
      CountsFall(labels[..n], scores[..n], labels[i], t, t');
    } else {
      CountsFallStrictly(labels[..n], scores[..n], t, t', i);
    }
  }

  datatype Point = Point(falseAccept: real, falseReject: real, threshold: real)

  function Gap(p: Point): real {
    p.falseAccept - p.falseReject
  }

  /** A share of a positive number. */
  function Share(part: nat, whole: nat): real
    requires whole > 0
  {
    part as real / whole as real
  }

  lemma ShareLess(a: nat, b: nat, whole: nat)
    requires whole > 0 && a <= b <= whole
    ensures 0.0 <= Share(a, whole) <= Share(b, whole) <= 1.0
    ensures a < b ==> Share(a, whole) < Share(b, whole)
    ensures Share(a, whole) == 0.0 <==> a == 0
    ensures Share(whole, whole) == 1.0
  {
    Divided(a as real, b as real, whole as real);
    Divided(0.0, a as real, whole as real);
    Divided(b as real, whole as real, whole as real);
  }

  lemma Divided(x: real, y: real, d: real)
    requires d > 0.0 && x <= y
    ensures x / d <= y / d && (x < y ==> x / d < y / d) && 0.0 / d == 0.0 && d / d == 1.0
  {
    var p, q := x / d, y / d;
    assert p * d == x && q * d == y;
    assert (q - p) * d == y - x;
    SignOf(q - p, d);
  }

  lemma SignOf(a: real, d: real)
    requires d > 0.0
    ensures (a * d >= 0.0 <==> a >= 0.0) && (a * d > 0.0 <==> a > 0.0)
  {
    if a > 0.0 {
      Grows(a, d);
    } else if a < 0.0 {
      Grows(-a, d);
      assert (-a) * d == -(a * d);
    }
  }

  lemma Grows(a: real, d: real)
    requires a > 0.0 && d > 0.0
    ensures a * d > 0.0
  {}

  /** Positives are accepted at or above the threshold, and negatives should not be. */
  function PointAt(labels: seq<int>, scores: seq<real>, t: real): Point
    requires |labels| == |scores| && Count(labels, 0) > 0 && Count(labels, 1) > 0
  {
    Point(Share(CountAtLeast(labels, scores, 0, t), Count(labels, 0)),
          Share(CountBelow(labels, scores, 1, t), Count(labels, 1)), t)
  }

  lemma ValidCounts(labels: seq<int>, scores: seq<real>)
    requires ValidInputs(labels, scores)
    ensures Count(labels, 0) > 0 && Count(labels, 1) > 0
    ensures Unique(scores) != [] && Ascending(Unique(scores))
  {
    CountPositive(labels, 0);
    CountPositive(labels, 1);
    UniqueKeeps(scores);
    assert scores[0] in scores;
  }

  /** The candidates of the sweep. */
  ghost function Points(labels: seq<int>, scores: seq<real>): (points: seq<Point>)
    requires ValidInputs(labels, scores)
    ensures |points| == |Unique(scores)| + 1 >= 2
  {
    ValidCounts(labels, scores);
    var u := Unique(scores);
    seq(|u| + 1, k requires 0 <= k <= |u| => PointAt(labels, scores, Threshold(u, k)))
  }

  /** Both rates are rates; at the lowest threshold everything is accepted, at the highest nothing; and the gap
      between them strictly decreases along the thresholds. */
  ghost predicate Falling(points: seq<Point>) {
    && |points| >= 2
    && (forall k :: 0 <= k < |points| ==> Unit(points[k]))
    && points[0].falseAccept == 1.0 && points[0].falseReject == 0.0
    && points[|points| - 1].falseAccept == 0.0 && points[|points| - 1].falseReject == 1.0
    && forall j, k :: 0 <= j < k < |points| ==> Gap(points[j]) > Gap(points[k])
  }

  ghost predicate Unit(p: Point) {
    0.0 <= p.falseAccept <= 1.0 && 0.0 <= p.falseReject <= 1.0
  }

  lemma PointUnit(labels: seq<int>, scores: seq<real>, t: real)
    requires |labels| == |scores| && Count(labels, 0) > 0 && Count(labels, 1) > 0
    ensures Unit(PointAt(labels, scores, t))
  {
    CountsAdd(labels, scores, 0, t);
    CountsAdd(labels, scores, 1, t);
    ShareLess(CountAtLeast(labels, scores, 0, t), Count(labels, 0), Count(labels, 0));
    ShareLess(CountBelow(labels, scores, 1, t), Count(labels, 1), Count(labels, 1));
  }

  /** A sample between two thresholds makes the gap smaller. */
  lemma GapFalls(labels: seq<int>, scores: seq<real>, t: real, t': real, i: nat)
    requires ValidInputs(labels, scores) && Count(labels, 0) > 0 && Count(labels, 1) > 0
    requires i < |scores| && t <= scores[i] < t'
    ensures Gap(PointAt(labels, scores, t)) > Gap(PointAt(labels, scores, t'))
  {
    CountsFall(labels, scores, 0, t, t');
    CountsFall(labels, scores, 1, t, t');
    CountsFallStrictly(labels, scores, t, t', i);
    CountsAdd(labels, scores, 0, t);
    CountsAdd(labels, scores, 1, t);
    CountsAdd(labels, scores, 1, t');
    ShareLess(CountAtLeast(labels, scores, 0, t'), CountAtLeast(labels, scores, 0, t), Count(labels, 0));
    ShareLess(CountBelow(labels, scores, 1, t), CountBelow(labels, scores, 1, t'), Count(labels, 1));
  }

  /** Below all scores and above all scores. */
  lemma {:induction false} Extremes(labels: seq<int>, scores: seq<real>, kind: int, t: real)
    requires |labels| == |scores|
    ensures (forall i :: 0 <= i < |scores| ==> scores[i] >= t) ==> CountBelow(labels, scores, kind, t) == 0
    ensures (forall i :: 0 <= i < |scores| ==> scores[i] < t) ==> CountAtLeast(labels, scores, kind, t) == 0
  {
    if labels != [] {
      var n := |labels| - 1;
      Extremes(labels[..n], scores[..n], kind, t);
    }
  }

  lemma ScoreRank(scores: seq<real>, i: nat) returns (j: nat)
    requires i < |scores|
    ensures j < |Unique(scores)| && Unique(scores)[j] == scores[i]
  {
    UniqueKeeps(scores);
    assert scores[i] in scores;
    j :| 0 <= j < |Unique(scores)| && Unique(scores)[j] == scores[i];
  }

  /** A sample is accepted at threshold k exactly when its score is not below the k-th distinct score. */
  lemma Accepted(scores: seq<real>, k: nat, i: nat)
    requires Unique(scores) != [] && k <= |Unique(scores)| && i < |scores|
    ensures k == 0 ==> scores[i] >= Threshold(Unique(scores), k)
    ensures k == |Unique(scores)| ==> scores[i] < Threshold(Unique(scores), k)
    ensures k < |Unique(scores)| ==> (scores[i] >= Threshold(Unique(scores), k) <==> scores[i] >= Unique(scores)[k])
  {
    UniqueKeeps(scores);
    var u := Unique(scores);
    var j := ScoreRank(scores, i);
    ThresholdRank(u, k, j);
    if k < |u| {
      assert j < k ==> u[j] < u[k];
      assert k < j ==> u[k] < u[j];
    }
  }

  lemma EndPoints(labels: seq<int>, scores: seq<real>)
    requires ValidInputs(labels, scores)
    ensures var points := Points(labels, scores);
      && points[0].falseAccept == 1.0 && points[0].falseReject == 0.0
      && points[|points| - 1].falseAccept == 0.0 && points[|points| - 1].falseReject == 1.0
  {
    ValidCounts(labels, scores);
    var u := Unique(scores);
    var low, high := Threshold(u, 0), Threshold(u, |u|);
    forall i | 0 <= i < |scores| ensures scores[i] >= low && scores[i] < high {
      Accepted(scores, 0, i);
      Accepted(scores, |u|, i);
    }
    forall kind ensures CountBelow(labels, scores, kind, low) == 0 && CountAtLeast(labels, scores, kind, high) == 0 {
      Extremes(labels, scores, kind, low);
      Extremes(labels, scores, kind, high);
    }
    CountsAdd(labels, scores, 0, low);
    CountsAdd(labels, scores, 1, high);
    ShareLess(0, Count(labels, 0), Count(labels, 0));
    ShareLess(0, Count(labels, 1), Count(labels, 1));
  }

  lemma SweepFalls(labels: seq<int>, scores: seq<real>)
    requires ValidInputs(labels, scores)
    ensures Falling(Points(labels, scores))
  {
    ValidCounts(labels, scores);
    EndPoints(labels, scores);
    var u, points := Unique(scores), Points(labels, scores);
    forall k | 0 <= k < |points| ensures Unit(points[k]) {
      PointUnit(labels, scores, Threshold(u, k));
    }
    forall j, k | 0 <= j < k < |points| ensures Gap(points[j]) > Gap(points[k]) {
      UniqueKeeps(scores);
      assert u[j] in u;
      var i :| 0 <= i < |scores| && scores[i] == u[j];
      ThresholdRank(u, j, j);
      ThresholdRank(u, k, j);
      GapFalls(labels, scores, Threshold(u, j), Threshold(u, k), i);
    }
  }

  // ---------------------------------------------------------------- where the curves meet

  /** A point on the straight line from a to b. */
  function Between(a: real, b: real, w: real): real {
    a + w * (b - a)
  }

  /** On segment k, at fraction w of it, both curves have the value e and the threshold is t. */
  ghost predicate MeetsOn(points: seq<Point>, k: nat, w: real, e: real, t: real)
    requires k + 1 < |points|
  {
    var p, q := points[k], points[k + 1];
    && 0.0 <= w < 1.0
    && Between(p.falseAccept, q.falseAccept, w) == e
    && Between(p.falseReject, q.falseReject, w) == e
    && Between(p.threshold, q.threshold, w) == t
  }

  /** The false-accept and false-reject curves meet at value e and threshold t. */
  ghost predicate Meets(points: seq<Point>, e: real, t: real) {
    exists k: nat, w: real :: k + 1 < |points| && MeetsOn(points, k, w, e, t)
  }

  lemma BetweenGap(p: Point, q: Point, w: real)
    ensures Between(p.falseAccept, q.falseAccept, w) - Between(p.falseReject, q.falseReject, w) == Between(Gap(p), Gap(q), w)
  {
    var a, b := q.falseAccept - p.falseAccept, q.falseReject - p.falseReject;
    assert w * (a - b) == w * a - w * b;
  }

  /** A falling line is zero at a point of its half-open segment only if it starts there or above and ends below. */
  lemma ZeroOfFalling(a: real, b: real, w: real)
    requires a > b && 0.0 <= w < 1.0 && Between(a, b, w) == 0.0
    ensures a >= 0.0 > b && w == a / (a - b)
  {
    ZeroOf(a, b - a, w);
  }

  lemma ZeroOf(a: real, d: real, w: real)
    requires d < 0.0 && 0.0 <= w < 1.0 && a + w * d == 0.0
    ensures a >= 0.0 > a + d && w == a / (-d)
  {
    var x := Scaled(w, d);
    EndsBelow(a, d, x);
    Negated(w, d, -d);
    Quotient(w, -d, a);
  }

  lemma EndsBelow(a: real, d: real, x: real)
    requires d < x && x <= 0.0 && a + x == 0.0
    ensures a >= 0.0 > a + d
  {}

  lemma Negated(w: real, d: real, c: real)
    requires c == -d
    ensures w * c == -(w * d)
  {}

  lemma Quotient(w: real, d: real, x: real)
    requires d > 0.0 && w * d == x
    ensures x / d == w
  {}

  /** There is at most one such point. */
  lemma MeetsUnique(points: seq<Point>, e: real, t: real, e': real, t': real)
    requires Falling(points)
    ensures Meets(points, e, t) && Meets(points, e', t') ==> e == e' && t == t'
  {
    if Meets(points, e, t) && Meets(points, e', t') {
      var k: nat, w: real :| k + 1 < |points| && MeetsOn(points, k, w, e, t);
      var k': nat, w': real :| k' + 1 < |points| && MeetsOn(points, k', w', e', t');
      MeetingSegment(points, k, w, e, t);
      MeetingSegment(points, k', w', e', t');
      SameSegment(points, k, k');
    }
  }

  lemma SameSegment(points: seq<Point>, k: nat, k': nat)
    requires Falling(points) && k + 1 < |points| && k' + 1 < |points|
    requires Gap(points[k]) >= 0.0 > Gap(points[k + 1]) && Gap(points[k']) >= 0.0 > Gap(points[k' + 1])
    ensures k == k'
  {
    EndsBefore(points, k, k');
    EndsBefore(points, k', k);
  }

  lemma EndsBefore(points: seq<Point>, k: nat, k': nat)
    requires Falling(points) && k + 1 < |points| && k' < |points|
    requires Gap(points[k']) >= 0.0 > Gap(points[k + 1])
    ensures k' <= k
  {}

  lemma MeetingSegment(points: seq<Point>, k: nat, w: real, e: real, t: real)
    requires Falling(points) && k + 1 < |points| && MeetsOn(points, k, w, e, t)
    ensures Gap(points[k]) >= 0.0 > Gap(points[k + 1])
    ensures w == Gap(points[k]) / (Gap(points[k]) - Gap(points[k + 1]))
  {
    BetweenGap(points[k], points[k + 1], w);
    ZeroOfFalling(Gap(points[k]), Gap(points[k + 1]), w);
  }

  lemma MeetsInUnit(points: seq<Point>, e: real, t: real)
    requires Falling(points) && Meets(points, e, t)
    ensures 0.0 <= e <= 1.0
  {
    var k: nat, w: real :| k + 1 < |points| && MeetsOn(points, k, w, e, t);
    assert Unit(points[k]) && Unit(points[k + 1]);
    BetweenBounds(points[k].falseAccept, points[k + 1].falseAccept, w);
  }

  lemma BetweenBounds(a: real, b: real, w: real)
    requires 0.0 <= a <= 1.0 && 0.0 <= b <= 1.0 && 0.0 <= w < 1.0
    ensures 0.0 <= Between(a, b, w) <= 1.0
    ensures Between(a, b, w) == 0.0 ==> a == 0.0
  {
    BoundsOf(a, b - a, w);
  }

  lemma BoundsOf(a: real, d: real, w: real)
    requires 0.0 <= a <= 1.0 && 0.0 <= a + d <= 1.0 && 0.0 <= w < 1.0
    ensures 0.0 <= a + w * d <= 1.0
    ensures a + w * d == 0.0 ==> a == 0.0
  {
    var x := Scaled(w, d);
    Shifted(a, d, x);
  }

  lemma Shifted(a: real, d: real, x: real)
    requires 0.0 <= a <= 1.0 && 0.0 <= a + d <= 1.0
    requires d >= 0.0 ==> 0.0 <= x <= d
    requires d < 0.0 ==> d < x && x <= 0.0
    ensures 0.0 <= a + x <= 1.0
    ensures a + x == 0.0 ==> a == 0.0
  {}

  lemma Scaled(w: real, d: real) returns (x: real)
    requires 0.0 <= w < 1.0
    ensures x == w * d
    ensures d >= 0.0 ==> 0.0 <= x <= d
    ensures d < 0.0 ==> d < x && x <= 0.0
  {
    ScaledWithin(w, d);
    if d < 0.0 {
      assert d < w * d && w * d <= 0.0;
      x := w * d;
      assert d < x;
    } else {
      x := w * d;
    }
  }

  lemma ScaledWithin(w: real, d: real)
    requires 0.0 <= w < 1.0
    ensures d >= 0.0 ==> 0.0 <= w * d <= d
    ensures d < 0.0 ==> d < w * d && w * d <= 0.0
  {
    RestOf(w, d, 1.0 - w);
    if d > 0.0 {
      SignOf(w, d);
      SignOf(1.0 - w, d);
    } else if d < 0.0 {
      Negated(w, d, -d);
      Negated(1.0 - w, d, -d);
      SignOf(w, -d);
      SignOf(1.0 - w, -d);
    }
  }

  lemma RestOf(w: real, d: real, v: real)
    requires v == 1.0 - w
    ensures v * d == d - w * d
  {}

  // ---------------------------------------------------------------- the sweep

  /** (distance, rate, threshold, signed gap) of one threshold. */
  datatype Candidate = Candidate(distance: real, rate: real, threshold: real, gap: real)

  function CandidateOf(p: Point): Candidate {
    Candidate(if Gap(p) < 0.0 then -Gap(p) else Gap(p), (p.falseAccept + p.falseReject) / 2.0, p.threshold, Gap(p))
  }

  ghost predicate Describes(candidates: seq<Candidate>, points: seq<Point>) {
    |candidates| == |points| && forall k :: 0 <= k < |points| ==> candidates[k] == CandidateOf(points[k])
  }

  lemma MeetsAtPoint(points: seq<Point>, k: nat)
    requires Falling(points) && k + 1 < |points| && Gap(points[k]) == 0.0
    ensures Meets(points, CandidateOf(points[k]).rate, points[k].threshold)
  {
    var c := CandidateOf(points[k]);
    assert MeetsOn(points, k, 0.0, c.rate, c.threshold);
  }

  /** The weight that makes a falling line zero. */
  lemma ZeroWeight(g: real, h: real)
    requires g > 0.0 > h
    ensures 0.0 < g / (g - h) < 1.0 && Between(g, h, g / (g - h)) == 0.0
  {
    Divided(0.0, g, g - h);
    Divided(g, g - h, g - h);
    WeightedZero(g, g - h, g / (g - h));
    assert h - g == -(g - h);
    Negated(g / (g - h), g - h, h - g);
  }

  lemma WeightedZero(g: real, d: real, w: real)
    requires d > 0.0 && w == g / d
    ensures w * d == g
  {}

  lemma MeetsBetween(points: seq<Point>, k: nat)
    requires Falling(points) && k + 1 < |points| && Gap(points[k]) > 0.0 > Gap(points[k + 1])
    ensures var l, r := CandidateOf(points[k]), CandidateOf(points[k + 1]);
      var w := l.gap / (l.gap - r.gap);
      Meets(points, Between(l.rate, r.rate, w), Between(l.threshold, r.threshold, w))
  {
    var p, q := points[k], points[k + 1];
    var w := Gap(p) / (Gap(p) - Gap(q));
    ZeroWeight(Gap(p), Gap(q));
    BetweenGap(p, q, w);
    BetweenMean(p, q, w);
    assert MeetsOn(points, k, w, Between(CandidateOf(p).rate, CandidateOf(q).rate, w), Between(p.threshold, q.threshold, w));
  }

  lemma BetweenMean(p: Point, q: Point, w: real)
    ensures Between(CandidateOf(p).rate, CandidateOf(q).rate, w)
         == (Between(p.falseAccept, q.falseAccept, w) + Between(p.falseReject, q.falseReject, w)) / 2.0
  {
    Halves(w, q.falseAccept - p.falseAccept, q.falseReject - p.falseReject);
  }

  lemma Halves(w: real, a: real, b: real)
    ensures w * ((a + b) / 2.0) == (w * a + w * b) / 2.0
  {}

  /** With a single distinct score the general construction gives one half at that score. */
  lemma OneScore(labels: seq<int>, scores: seq<real>)
    requires ValidInputs(labels, scores) && |Unique(scores)| == 1
    ensures Meets(Points(labels, scores), 0.5, Unique(scores)[0])
  {
    EndPoints(labels, scores);
    assert MeetsOn(Points(labels, scores), 0, 0.5, 0.5, Unique(scores)[0]);
  }

  /** The metric. For every valid input the curves meet and their meeting point is returned; the loop is never left
      by its end, where pairing lists of different lengths strictly would fail. */
  method ComputeEqualErrorRate(labels: seq<int>, scores: seq<real>) returns (r: Result<(real, real), MetricError>)
    ensures !ValidInputs(labels, scores) ==> r == Err(BinaryMetricInputInvalid)
    ensures ValidInputs(labels, scores) ==> r.Ok? && Meets(Points(labels, scores), r.value.0, r.value.1)
  {
    if !ValidInputs(labels, scores) {
      return Err(BinaryMetricInputInvalid);
    }
    ValidCounts(labels, scores);
    SweepFalls(labels, scores);
    var unique := Unique(scores);
    if |unique| == 1 {
      OneScore(labels, scores);
      return Ok((0.5, unique[0]));
    }
    var candidates := Candidates(labels, scores, unique);
    r := FindCrossing(candidates, Points(labels, scores));
  }

  /** The loop over neighbouring candidates. */
  method FindCrossing(candidates: seq<Candidate>, ghost points: seq<Point>) returns (r: Result<(real, real), MetricError>)
    requires Falling(points) && Describes(candidates, points)
    ensures r.Ok? && Meets(points, r.value.0, r.value.1)
  {
    for i := 0 to |candidates| - 1
      invariant candidates[i].gap >= 0.0
    {
      var left, right := candidates[i], candidates[i + 1];
      if left.gap == 0.0 {
        MeetsAtPoint(points, i);
        return Ok((left.rate, left.threshold));
      }
      if left.gap > 0.0 && 0.0 > right.gap {
        MeetsBetween(points, i);
        var weight := left.gap / (left.gap - right.gap);
        return Ok((Between(left.rate, right.rate, weight), Between(left.threshold, right.threshold, weight)));
      }
    }
    assert false;
    r := Err(ZipLengthsDiffer);
  }

  method Candidates(labels: seq<int>, scores: seq<real>, unique: seq<real>) returns (candidates: seq<Candidate>)
    requires ValidInputs(labels, scores) && unique == Unique(scores)
    ensures Describes(candidates, Points(labels, scores))
  {
    ValidCounts(labels, scores);
    candidates := [];
    ghost var points := Points(labels, scores);
    for k := 0 to |unique| + 1
      invariant |candidates| == k
      invariant forall j :: 0 <= j < k ==> candidates[j] == CandidateOf(points[j])
    {
      var threshold := Threshold(unique, k);
      var falseAccept := Share(CountAtLeast(labels, scores, 0, threshold), Count(labels, 0));
      var falseReject := Share(CountBelow(labels, scores, 1, threshold), Count(labels, 1));
      var gap := falseAccept - falseReject;
      candidates := candidates
        + [Candidate(if gap < 0.0 then -gap else gap, (falseAccept + falseReject) / 2.0, threshold, gap)];
    }
  }

  // ---------------------------------------------------------------- what the rate means

  /** Every positive scores above every negative. */
  ghost predicate Separated(labels: seq<int>, scores: seq<real>)
    requires |labels| == |scores|
  {
    forall i, j :: 0 <= i < |labels| && 0 <= j < |labels| && labels[i] == 0 && labels[j] == 1 ==> scores[i] < scores[j]
  }

  lemma {:induction false} NoneCounted(labels: seq<int>, scores: seq<real>, kind: int, t: real)
    requires |labels| == |scores|
    ensures CountAtLeast(labels, scores, kind, t) == 0 <==>
      forall i :: 0 <= i < |labels| && labels[i] == kind ==> scores[i] < t
    ensures CountBelow(labels, scores, kind, t) == 0 <==>
      forall i :: 0 <= i < |labels| && labels[i] == kind ==> scores[i] >= t
  {
    if labels != [] {
      var n := |labels| - 1;
      NoneCounted(labels[..n], scores[..n], kind, t);
      assert forall i :: 0 <= i < n ==> labels[i] == labels[..n][i] && scores[i] == scores[..n][i];
    }
  }

  /** The point makes no error exactly when its threshold separates the labels. */
  lemma NoError(labels: seq<int>, scores: seq<real>, t: real)
    requires |labels| == |scores| && Count(labels, 0) > 0 && Count(labels, 1) > 0
    ensures var p := PointAt(labels, scores, t);
      p.falseAccept == 0.0 && p.falseReject == 0.0 <==>
        forall i :: 0 <= i < |labels| ==> (labels[i] == 0 ==> scores[i] < t) && (labels[i] == 1 ==> scores[i] >= t)
  {
    CountsAdd(labels, scores, 0, t);
    CountsAdd(labels, scores, 1, t);
    ShareLess(CountAtLeast(labels, scores, 0, t), Count(labels, 0), Count(labels, 0));
    ShareLess(CountBelow(labels, scores, 1, t), Count(labels, 1), Count(labels, 1));
    NoneCounted(labels, scores, 0, t);
    NoneCounted(labels, scores, 1, t);
  }

  /** The lowest positive score. */
  lemma {:induction false} LowestPositive(labels: seq<int>, scores: seq<real>) returns (i: nat)
    requires |labels| == |scores| && 1 in labels
    ensures i < |labels| && labels[i] == 1
    ensures forall j :: 0 <= j < |labels| && labels[j] == 1 ==> scores[i] <= scores[j]
  {
    var n := |labels| - 1;
    if 1 in labels[..n] {
      i := LowestPositive(labels[..n], scores[..n]);
      assert forall j :: 0 <= j < n ==> labels[j] == labels[..n][j] && scores[j] == scores[..n][j];
      if labels[n] == 1 && scores[n] < scores[i] { i := n; }
    } else {
      i := n;
      assert forall j :: 0 <= j < n ==> labels[..n][j] == labels[j] && labels[j] in labels[..n];
    }
  }

  /** The rate is zero exactly for scores that separate the labels. */
  lemma ZeroExactlyWhenSeparated(labels: seq<int>, scores: seq<real>, e: real, t: real)
    requires ValidInputs(labels, scores) && Meets(Points(labels, scores), e, t)
    ensures e == 0.0 <==> Separated(labels, scores)
  {
    ValidCounts(labels, scores);
    SweepFalls(labels, scores);
    var points, u := Points(labels, scores), Unique(scores);
    if e == 0.0 {
      var k: nat, w: real :| k + 1 < |points| && MeetsOn(points, k, w, e, t);
      assert Unit(points[k]) && Unit(points[k + 1]);
      BetweenBounds(points[k].falseAccept, points[k + 1].falseAccept, w);
      BetweenBounds(points[k].falseReject, points[k + 1].falseReject, w);
      NoError(labels, scores, Threshold(u, k));
    } else if Separated(labels, scores) {
      var i := LowestPositive(labels, scores);
      var k := ScoreRank(scores, i);
      SeparatingThreshold(labels, scores, i, k);
      NoError(labels, scores, Threshold(u, k));
      assert points[k] == PointAt(labels, scores, Threshold(u, k));
      MeetsAtPoint(points, k);
      MeetsUnique(points, e, t, CandidateOf(points[k]).rate, points[k].threshold);
    }
  }

  lemma SeparatingThreshold(labels: seq<int>, scores: seq<real>, i: nat, k: nat)
    requires ValidInputs(labels, scores) && Separated(labels, scores)
    requires i < |labels| && labels[i] == 1 && k < |Unique(scores)| && Unique(scores)[k] == scores[i]
    requires forall j :: 0 <= j < |labels| && labels[j] == 1 ==> scores[i] <= scores[j]
    ensures forall j :: 0 <= j < |labels| ==>
      (labels[j] == 0 ==> scores[j] < Threshold(Unique(scores), k))
      && (labels[j] == 1 ==> scores[j] >= Threshold(Unique(scores), k))
  {
    forall j | 0 <= j < |labels|
      ensures (labels[j] == 0 ==> scores[j] < Threshold(Unique(scores), k))
      ensures (labels[j] == 1 ==> scores[j] >= Threshold(Unique(scores), k))
    {
      Accepted(scores, k, j);
    }
  }

  /** The rate lies between 0 and 1. */
  lemma RateInUnit(labels: seq<int>, scores: seq<real>, e: real, t: real)
    requires ValidInputs(labels, scores) && Meets(Points(labels, scores), e, t)
    ensures 0.0 <= e <= 1.0
  {
    SweepFalls(labels, scores);
    MeetsInUnit(Points(labels, scores), e, t);
  }

  // ---------------------------------------------------------------- invariance

  function Mapped(f: real -> real, s: seq<real>): (r: seq<real>)
    ensures |r| == |s|
    ensures forall i :: 0 <= i < |s| ==> r[i] == f(s[i])
  {
    seq(|s|, i requires 0 <= i < |s| => f(s[i]))
  }

  ghost predicate IncreasingOn(f: real -> real, s: seq<real>) {
    forall x, y :: x in s && y in s && x < y ==> f(x) < f(y)
  }

  lemma UniqueMapped(f: real -> real, scores: seq<real>)
    requires IncreasingOn(f, scores)
    ensures Unique(Mapped(f, scores)) == Mapped(f, Unique(scores))
  {
    UniqueKeeps(scores);
    UniqueKeeps(Mapped(f, scores));
    var u, m := Unique(scores), Mapped(f, scores);
    var v := Mapped(f, u);
    forall i, j | 0 <= i < j < |v| ensures v[i] < v[j] {
      assert u[i] in u && u[j] in u && u[i] < u[j];
    }
    forall y ensures y in v <==> y in m {
      if y in v {
        var k :| 0 <= k < |v| && v[k] == y;
        assert u[k] in u;
        var i :| 0 <= i < |scores| && scores[i] == u[k];
        assert m[i] == y;
      }
      if y in m {
        var i :| 0 <= i < |m| && m[i] == y;
        assert scores[i] in scores;
        var k :| 0 <= k < |u| && u[k] == scores[i];
        assert v[k] == y;
      }
    }
    AscendingSame(Unique(m), v);
  }

  /** The two curves have the same values, perhaps at other thresholds. */
  ghost predicate SameCurves(a: seq<Point>, b: seq<Point>) {
    && |a| == |b|
    && forall k :: 0 <= k < |a| ==> a[k].falseAccept == b[k].falseAccept && a[k].falseReject == b[k].falseReject
  }

  lemma SameCurvesMeet(a: seq<Point>, b: seq<Point>, e: real, t: real, e': real, t': real)
    requires SameCurves(a, b) && Falling(b)
    ensures Meets(a, e, t) && Meets(b, e', t') ==> e == e'
  {
    if Meets(a, e, t) {
      var k: nat, w: real :| k + 1 < |a| && MeetsOn(a, k, w, e, t);
      var t'' := Between(b[k].threshold, b[k + 1].threshold, w);
      assert MeetsOn(b, k, w, e, t'');
      MeetsUnique(b, e, t'', e', t');
    }
  }

  lemma MappedSide(f: real -> real, scores: seq<real>, k: nat, i: nat)
    requires IncreasingOn(f, scores) && Unique(scores) != [] && k <= |Unique(scores)| && i < |scores|
    requires Unique(Mapped(f, scores)) == Mapped(f, Unique(scores))
    ensures scores[i] >= Threshold(Unique(scores), k)
       <==> Mapped(f, scores)[i] >= Threshold(Unique(Mapped(f, scores)), k)
  {
    Accepted(scores, k, i);
    Accepted(Mapped(f, scores), k, i);
    if k < |Unique(scores)| {
      UniqueKeeps(scores);
      assert scores[i] in scores && Unique(scores)[k] in Unique(scores);
    }
  }

  /** Points whose thresholds every sample sees on the same side. */
  lemma SamePoint(labels: seq<int>, a: seq<real>, b: seq<real>, t: real, t': real)
    requires |labels| == |a| == |b| && Count(labels, 0) > 0 && Count(labels, 1) > 0
    requires forall i :: 0 <= i < |a| ==> (a[i] >= t <==> b[i] >= t')
    ensures PointAt(labels, a, t).falseAccept == PointAt(labels, b, t').falseAccept
    ensures PointAt(labels, a, t).falseReject == PointAt(labels, b, t').falseReject
  {
    CountsAgree(labels, a, b, 0, t, t');
    CountsAgree(labels, a, b, 1, t, t');
    CountsAdd(labels, a, 1, t);
    CountsAdd(labels, b, 1, t');
  }

  lemma MappedPoint(labels: seq<int>, scores: seq<real>, f: real -> real, k: nat)
    requires ValidInputs(labels, scores) && ValidInputs(labels, Mapped(f, scores)) && IncreasingOn(f, scores)
    requires k <= |Unique(scores)| && Unique(Mapped(f, scores)) == Mapped(f, Unique(scores))
    ensures var p, q := Points(labels, scores)[k], Points(labels, Mapped(f, scores))[k];
      p.falseAccept == q.falseAccept && p.falseReject == q.falseReject
  {
    ValidCounts(labels, scores);
    ValidCounts(labels, Mapped(f, scores));
    var x, y := Threshold(Unique(scores), k), Threshold(Unique(Mapped(f, scores)), k);
    forall i | 0 <= i < |scores| ensures scores[i] >= x <==> Mapped(f, scores)[i] >= y {
      MappedSide(f, scores, k, i);
    }
    SamePoint(labels, scores, Mapped(f, scores), x, y);
  }

  lemma MappedCurves(labels: seq<int>, scores: seq<real>, f: real -> real)
    requires ValidInputs(labels, scores) && ValidInputs(labels, Mapped(f, scores)) && IncreasingOn(f, scores)
    ensures SameCurves(Points(labels, scores), Points(labels, Mapped(f, scores)))
  {
    UniqueMapped(f, scores);
    forall k | 0 <= k < |Points(labels, scores)|
      ensures Points(labels, scores)[k].falseAccept == Points(labels, Mapped(f, scores))[k].falseAccept
      ensures Points(labels, scores)[k].falseReject == Points(labels, Mapped(f, scores))[k].falseReject
    {
      MappedPoint(labels, scores, f, k);
    }
  }

  /** Any strictly increasing rescoring leaves the rate as it is. */
  lemma RescoringInvariant(labels: seq<int>, scores: seq<real>, f: real -> real, e: real, t: real, e': real, t': real)
    requires ValidInputs(labels, scores) && IncreasingOn(f, scores)
    ensures Meets(Points(labels, scores), e, t) && Meets(Points(labels, Mapped(f, scores)), e', t') ==> e == e'
  {
    MappedCurves(labels, scores, f);
    SweepFalls(labels, Mapped(f, scores));
    SameCurvesMeet(Points(labels, scores), Points(labels, Mapped(f, scores)), e, t, e', t');
  }

  function Swapped(labels: seq<int>): (r: seq<int>)
    ensures |r| == |labels|
    ensures forall i :: 0 <= i < |labels| ==> r[i] == 1 - labels[i]
  {
    seq(|labels|, i requires 0 <= i < |labels| => 1 - labels[i])
  }

  function Orient(scores: seq<real>, higherIsPositive: bool): (r: seq<real>)
    ensures |r| == |scores|
    ensures forall i :: 0 <= i < |scores| ==> r[i] == if higherIsPositive then scores[i] else -scores[i]
  {
    seq(|scores|, i requires 0 <= i < |scores| => if higherIsPositive then scores[i] else -scores[i])
  }

  /** The distinct scores of the negated scores, in their ascending order. */
  function Mirrored(u: seq<real>): (r: seq<real>)
    ensures |r| == |u|
    ensures forall k :: 0 <= k < |u| ==> r[k] == -u[|u| - 1 - k]
  {
    seq(|u|, k requires 0 <= k < |u| => -u[|u| - 1 - k])
  }

  lemma MirroredAscending(u: seq<real>)
    requires Ascending(u)
    ensures Ascending(Mirrored(u))
  {}

  lemma MirroredElements(u: seq<real>, scores: seq<real>, y: real)
    requires forall x :: x in u <==> x in scores
    ensures y in Mirrored(u) <==> y in Orient(scores, false)
  {
    var v, m := Mirrored(u), Orient(scores, false);
    if y in v {
      var k :| 0 <= k < |v| && v[k] == y;
      assert u[|u| - 1 - k] in u;
      var i :| 0 <= i < |scores| && scores[i] == u[|u| - 1 - k];
      assert m[i] == y;
    }
    if y in m {
      var i :| 0 <= i < |m| && m[i] == y;
      assert scores[i] in scores;
      var k :| 0 <= k < |u| && u[k] == scores[i];
      assert v[|u| - 1 - k] == y;
    }
  }

  lemma UniqueMirrored(scores: seq<real>)
    ensures Unique(Orient(scores, false)) == Mirrored(Unique(scores))
  {
    var u, m := Unique(scores), Orient(scores, false);
    UniqueKeeps(scores);
    UniqueKeeps(m);
    MirroredAscending(u);
    forall y ensures y in Mirrored(u) <==> y in m {
      MirroredElements(u, scores, y);
    }
    AscendingSame(Unique(m), Mirrored(u));
  }

  lemma ThresholdMirrored(u: seq<real>, k: nat)
    requires u != [] && k <= |u|
    ensures Threshold(Mirrored(u), |u| - k) == -Threshold(u, k)
  {}

  /** Swapping labels and negating scores swaps the two counts. */
  lemma {:induction false} CountsMirrored(labels: seq<int>, scores: seq<real>, kind: int, t: real)
    requires |labels| == |scores|
    requires forall i :: 0 <= i < |scores| ==> scores[i] != t
    ensures CountAtLeast(Swapped(labels), Orient(scores, false), 1 - kind, -t) == CountBelow(labels, scores, kind, t)
    ensures Count(Swapped(labels), 1 - kind) == Count(labels, kind)
  {
    if labels != [] {
      var n := |labels| - 1;
      CountsMirrored(labels[..n], scores[..n], kind, t);
      assert Swapped(labels)[..n] == Swapped(labels[..n]);
      assert Orient(scores, false)[..n] == Orient(scores[..n], false);
    }
  }

  /** The other curve, read from the other end. */
  ghost predicate MirrorCurves(a: seq<Point>, b: seq<Point>) {
    && |a| == |b|
    && forall k :: 0 <= k < |a| ==> Mirror(a[k], b[|a| - 1 - k])
  }

  ghost predicate Mirror(p: Point, q: Point) {
    q.falseAccept == p.falseReject && q.falseReject == p.falseAccept && q.threshold == -p.threshold
  }

  lemma BetweenReversed(a: real, b: real, w: real)
    ensures Between(b, a, 1.0 - w) == Between(a, b, w)
    ensures Between(-b, -a, 1.0 - w) == -Between(a, b, w)
  {
    RestOf(w, b - a, 1.0 - w);
    Negated(1.0 - w, b - a, a - b);
  }

  lemma MirrorMeets(a: seq<Point>, b: seq<Point>, e: real, t: real)
    requires Falling(a) && MirrorCurves(a, b) && Meets(a, e, t)
    ensures Meets(b, e, -t)
  {
    var k: nat, w: real :| k + 1 < |a| && MeetsOn(a, k, w, e, t);
    var p, q := a[k], a[k + 1];
    var j := |a| - 1 - k;
    if w == 0.0 {
      MeetingSegment(a, k, w, e, t);
      assert Between(p.falseAccept, q.falseAccept, w) == p.falseAccept;
      assert Between(p.falseReject, q.falseReject, w) == p.falseReject;
      assert k != 0;
      assert MeetsOn(b, j, 0.0, e, -t);
    } else {
      BetweenReversed(p.falseAccept, q.falseAccept, w);
      BetweenReversed(p.falseReject, q.falseReject, w);
      BetweenReversed(p.threshold, q.threshold, w);
      assert Mirror(q, b[|a| - 1 - (k + 1)]);
      assert MeetsOn(b, j - 1, 1.0 - w, e, -t);
    }
  }

  lemma AllCountsMirrored(labels: seq<int>, scores: seq<real>, t: real)
    requires |labels| == |scores|
    requires forall i :: 0 <= i < |scores| ==> scores[i] != t
    ensures CountAtLeast(Swapped(labels), Orient(scores, false), 0, -t) == CountBelow(labels, scores, 1, t)
    ensures CountBelow(Swapped(labels), Orient(scores, false), 1, -t) == CountAtLeast(labels, scores, 0, t)
    ensures Count(Swapped(labels), 0) == Count(labels, 1) && Count(Swapped(labels), 1) == Count(labels, 0)
  {
    CountsMirrored(labels, scores, 0, t);
    CountsMirrored(labels, scores, 1, t);
    CountsAdd(labels, scores, 0, t);
    CountsAdd(Swapped(labels), Orient(scores, false), 1, -t);
  }

  lemma PointMirrored(labels: seq<int>, scores: seq<real>, swapped: seq<int>, negated: seq<real>, t: real, t': real)
    requires |labels| == |scores| && Count(labels, 0) > 0 && Count(labels, 1) > 0
    requires |swapped| == |negated| && Count(swapped, 0) == Count(labels, 1) && Count(swapped, 1) == Count(labels, 0)
    requires CountAtLeast(swapped, negated, 0, t') == CountBelow(labels, scores, 1, t)
    requires CountBelow(swapped, negated, 1, t') == CountAtLeast(labels, scores, 0, t)
    requires t' == -t
    ensures Mirror(PointAt(labels, scores, t), PointAt(swapped, negated, t'))
  {}

  lemma NoScoreAtThreshold(scores: seq<real>, k: nat, i: nat)
    requires Unique(scores) != [] && k <= |Unique(scores)| && i < |scores|
    ensures scores[i] != Threshold(Unique(scores), k)
  {
    UniqueKeeps(scores);
    var j := ScoreRank(scores, i);
    ThresholdRank(Unique(scores), k, j);
  }

  lemma MirroredAt(labels: seq<int>, scores: seq<real>, t: real)
    requires ValidInputs(labels, scores) && ValidInputs(Swapped(labels), Orient(scores, false))
    requires forall i :: 0 <= i < |scores| ==> scores[i] != t
    ensures Count(labels, 0) > 0 && Count(labels, 1) > 0 && Count(Swapped(labels), 0) > 0 && Count(Swapped(labels), 1) > 0
    ensures Mirror(PointAt(labels, scores, t), PointAt(Swapped(labels), Orient(scores, false), -t))
  {
    ValidCounts(labels, scores);
    ValidCounts(Swapped(labels), Orient(scores, false));
    AllCountsMirrored(labels, scores, t);
    PointMirrored(labels, scores, Swapped(labels), Orient(scores, false), t, -t);
  }

  lemma PointsAt(labels: seq<int>, scores: seq<real>, k: nat, t: real) returns (p: Point)
    requires ValidInputs(labels, scores) && Unique(scores) != [] && k <= |Unique(scores)|
    requires t == Threshold(Unique(scores), k)
    ensures Count(labels, 0) > 0 && Count(labels, 1) > 0
    ensures p == PointAt(labels, scores, t) && Points(labels, scores)[k] == p
  {
    ValidCounts(labels, scores);
    p := PointAt(labels, scores, t);
  }

  /** The threshold that mirrors the k-th, and no sample lies on it. */
  lemma MirrorThreshold(scores: seq<real>, k: nat) returns (t: real)
    requires Unique(scores) != [] && k <= |Unique(scores)|
    requires Unique(Orient(scores, false)) == Mirrored(Unique(scores))
    ensures t == Threshold(Unique(scores), k)
    ensures -t == Threshold(Unique(Orient(scores, false)), |Unique(scores)| - k)
    ensures forall i :: 0 <= i < |scores| ==> scores[i] != t
  {
    t := Threshold(Unique(scores), k);
    ThresholdMirrored(Unique(scores), k);
    forall i | 0 <= i < |scores| ensures scores[i] != t {
      NoScoreAtThreshold(scores, k, i);
    }
  }

  lemma MirroredPoints(labels: seq<int>, scores: seq<real>, t: real, p: Point, q: Point)
    requires ValidInputs(labels, scores) && ValidInputs(Swapped(labels), Orient(scores, false))
    requires forall i :: 0 <= i < |scores| ==> scores[i] != t
    requires Count(labels, 0) > 0 && Count(labels, 1) > 0 && Count(Swapped(labels), 0) > 0 && Count(Swapped(labels), 1) > 0
    requires p == PointAt(labels, scores, t) && q == PointAt(Swapped(labels), Orient(scores, false), -t)
    ensures Mirror(p, q)
  {
    MirroredAt(labels, scores, t);
  }

  lemma MirrorPoints(labels: seq<int>, scores: seq<real>, k: nat) returns (t: real, p: Point, q: Point)
    requires ValidInputs(labels, scores) && ValidInputs(Swapped(labels), Orient(scores, false)) && k <= |Unique(scores)|
    requires Unique(scores) != [] && Unique(Orient(scores, false)) == Mirrored(Unique(scores))
    ensures p == Points(labels, scores)[k] && q == Points(Swapped(labels), Orient(scores, false))[|Unique(scores)| - k]
    ensures Count(labels, 0) > 0 && Count(labels, 1) > 0 && Count(Swapped(labels), 0) > 0 && Count(Swapped(labels), 1) > 0
    ensures p == PointAt(labels, scores, t) && q == PointAt(Swapped(labels), Orient(scores, false), -t)
    ensures forall i :: 0 <= i < |scores| ==> scores[i] != t
  {
    t := MirrorThreshold(scores, k);
    p := PointsAt(labels, scores, k, t);
    q := PointsAt(Swapped(labels), Orient(scores, false), |Unique(scores)| - k, -t);
  }

  lemma PointsMirrored(labels: seq<int>, scores: seq<real>, k: nat)
    requires ValidInputs(labels, scores) && ValidInputs(Swapped(labels), Orient(scores, false)) && k <= |Unique(scores)|
    requires Unique(scores) != [] && Unique(Orient(scores, false)) == Mirrored(Unique(scores))
    ensures Mirror(Points(labels, scores)[k], Points(Swapped(labels), Orient(scores, false))[|Unique(scores)| - k])
  {
    var t, p, q := MirrorPoints(labels, scores, k);
    MirroredPoints(labels, scores, t, p, q);
  }

  lemma CurvesMirrored(labels: seq<int>, scores: seq<real>)
    requires ValidInputs(labels, scores) && ValidInputs(Swapped(labels), Orient(scores, false))
    ensures MirrorCurves(Points(labels, scores), Points(Swapped(labels), Orient(scores, false)))
  {
    ValidCounts(labels, scores);
    UniqueMirrored(scores);
    var a, b := Points(labels, scores), Points(Swapped(labels), Orient(scores, false));
    forall k | 0 <= k < |a| ensures Mirror(a[k], b[|a| - 1 - k]) {
      PointsMirrored(labels, scores, k);
    }
  }

  lemma SwappedValid(labels: seq<int>, scores: seq<real>)
    requires ValidInputs(labels, scores)
    ensures ValidInputs(Swapped(labels), Orient(scores, false))
    ensures Swapped(Swapped(labels)) == labels && Orient(Orient(scores, false), false) == scores
  {
    var i :| 0 <= i < |labels| && labels[i] == 0;
    var j :| 0 <= j < |labels| && labels[j] == 1;
    assert Swapped(labels)[i] == 1 && Swapped(labels)[j] == 0;
  }

  lemma OrientedMeets(labels: seq<int>, scores: seq<real>, e: real, t: real)
    requires ValidInputs(labels, scores) && ValidInputs(Swapped(labels), Orient(scores, false))
    ensures Meets(Points(labels, scores), e, t) ==> Meets(Points(Swapped(labels), Orient(scores, false)), e, -t)
  {
    SweepFalls(labels, scores);
    CurvesMirrored(labels, scores);
    if Meets(Points(labels, scores), e, t) {
      MirrorMeets(Points(labels, scores), Points(Swapped(labels), Orient(scores, false)), e, t);
    }
  }

  /** Reading lower scores as more positive and swapping the labels gives the same rate at the negated threshold. */
  lemma OrientationInvariant(labels: seq<int>, scores: seq<real>, e: real, t: real)
    requires ValidInputs(labels, scores)
    ensures ValidInputs(Swapped(labels), Orient(scores, false))
    ensures Meets(Points(labels, scores), e, t) <==> Meets(Points(Swapped(labels), Orient(scores, false)), e, -t)
  {
    SwappedValid(labels, scores);
    OrientedMeets(labels, scores, e, t);
    OrientedMeets(Swapped(labels), Orient(scores, false), e, -t);
  }
}
