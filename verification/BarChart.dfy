/**
 Chart geometry over the reals: the axis bounds of a chart and the width of its bars.
*/
module BarChart {
  import opened Wrappers

  datatype Point = Point(x: real, y: real)

  // ----- the width of a bar ---------------------------------------------------------------

  /** The horizontal extent of a bar. */
  datatype Bar = Bar(left: real, right: real)

  function BarAt(p: Point, width: real): Bar {
    Bar(p.x - width / 2.0, p.x + width / 2.0)
  }

  /** Two bars with at most an edge in common. */
  predicate Apart(a: Bar, b: Bar) {
    a.right <= b.left || b.right <= a.left
  }

  ghost predicate AllApart(points: seq<Point>, width: real) {
    forall i, j :: 0 <= i < |points| && 0 <= j < |points| && points[i].x != points[j].x ==>
      Apart(BarAt(points[i], width), BarAt(points[j], width))
  }

  function Xs(points: seq<Point>): seq<real> {
    seq(|points|, i requires 0 <= i < |points| => points[i].x)
  }

  predicate Sorted(xs: seq<real>) {
    forall i, j :: 0 <= i <= j < |xs| ==> xs[i] <= xs[j]
  }

  function Insert(x: real, xs: seq<real>): seq<real> {
    if xs == [] || x <= xs[0] then [x] + xs else [xs[0]] + Insert(x, xs[1..])
  }

  /** What the library's `sort_by` makes of finite values. */
  function SortedReals(xs: seq<real>): seq<real> {
    if xs == [] then [] else Insert(xs[0], SortedReals(xs[1..]))
  }

  lemma {:induction false} InsertPermutes(x: real, xs: seq<real>)
    ensures multiset(Insert(x, xs)) == multiset(xs) + multiset{x}
  {
    if xs != [] && x > xs[0] {
      InsertPermutes(x, xs[1..]);
      assert xs == [xs[0]] + xs[1..];
    }
  }

  lemma {:induction false} InsertSorts(x: real, xs: seq<real>)
    requires Sorted(xs)
    ensures Sorted(Insert(x, xs))
    ensures Insert(x, xs) != [] && (Insert(x, xs)[0] == x || (xs != [] && Insert(x, xs)[0] == xs[0]))
  {
    if xs != [] && x > xs[0] {
      InsertSorts(x, xs[1..]);
      ConsSorted(xs[0], Insert(x, xs[1..]));
    } else if xs != [] {
      ConsSorted(x, xs);
    }
  }

  lemma ConsSorted(x: real, xs: seq<real>)
    requires Sorted(xs) && xs != [] && x <= xs[0]
    ensures Sorted([x] + xs)
  {
  }

  lemma {:induction false} SortIsSorted(xs: seq<real>)
    ensures Sorted(SortedReals(xs)) && multiset(SortedReals(xs)) == multiset(xs)
  {
    if xs != [] {
      SortIsSorted(xs[1..]);
      InsertSorts(xs[0], SortedReals(xs[1..]));
      InsertPermutes(xs[0], SortedReals(xs[1..]));
      assert xs == [xs[0]] + xs[1..];
    }
  }

  /** No two of the values are closer than `gap` without being equal, and two are that far apart. */
  ghost predicate LeastGap(xs: multiset<real>, gap: Option<real>) {
    match gap
    case None => forall x, y :: x in xs && y in xs ==> x == y
    case Some(g) =>
      && g > 0.0
      && (exists x, y :: x in xs && y in xs && y - x == g)
      && (forall x, y :: x in xs && y in xs && x < y ==> y - x >= g)
  }

  lemma GapAtMost(xs: multiset<real>, a: real, b: Option<real>)
    requires LeastGap(xs, Some(a)) && LeastGap(xs, b)
    ensures b.Some? && b.value <= a
  {
    var x, y :| x in xs && y in xs && y - x == a;
    assert x < y;
  }

  lemma LeastGapIsUnique(xs: multiset<real>, a: Option<real>, b: Option<real>)
    requires LeastGap(xs, a) && LeastGap(xs, b)
    ensures a == b
  {
    if a.Some? {
      GapAtMost(xs, a.value, b);
    }
    if b.Some? {
      GapAtMost(xs, b.value, a);
    }
  }

  /** The smallest positive gap of neighbours among the first `n`. */
  ghost predicate LeastStep(xs: seq<real>, n: nat, gap: Option<real>)
    requires n <= |xs|
  {
    match gap
    case None => forall i :: 0 <= i < n - 1 ==> xs[i + 1] - xs[i] <= 0.0
    case Some(g) =>
      && g > 0.0
      && (exists i :: 0 <= i < n - 1 && xs[i + 1] - xs[i] == g)
      && (forall i :: 0 <= i < n - 1 && xs[i + 1] - xs[i] > 0.0 ==> xs[i + 1] - xs[i] >= g)
  }

  lemma {:induction false} FartherThanAStep(xs: seq<real>, gap: Option<real>, i: nat, j: nat)
    requires Sorted(xs) && LeastStep(xs, |xs|, gap) && i < j < |xs| && xs[i] < xs[j]
    ensures gap.Some? && xs[j] - xs[i] >= gap.value
    decreases j - i
  {
    if xs[j - 1] == xs[j] {
      FartherThanAStep(xs, gap, i, j - 1);
    } else {
      assert xs[j - 1 + 1] - xs[j - 1] > 0.0;
    }
  }

  /** In a sorted list the nearest pair are neighbours. */
  lemma NeighboursAreNearest(xs: seq<real>, gap: Option<real>)
    requires Sorted(xs) && LeastStep(xs, |xs|, gap)
    ensures LeastGap(multiset(xs), gap)
  {
    forall x, y | x in multiset(xs) && y in multiset(xs) && x < y ensures gap.Some? && y - x >= gap.value {
      var i :| 0 <= i < |xs| && xs[i] == x;
      var j :| 0 <= j < |xs| && xs[j] == y;
      FartherThanAStep(xs, gap, i, j);
    }
    if gap.Some? {
      var i :| 0 <= i < |xs| - 1 && xs[i + 1] - xs[i] == gap.value;
      assert xs[i] in multiset(xs) && xs[i + 1] in multiset(xs);
    } else {
      assert forall x, y :: x in multiset(xs) && y in multiset(xs) ==> !(x < y) && !(y < x);
    }
  }

  function Abs(r: real): real {
    if r < 0.0 then -r else r
  }

  /** One pass over the windows of two, lowering the gap. */
  method MinGap(xs: seq<real>) returns (minGap: Option<real>)
    requires Sorted(xs) && |xs| >= 2
    ensures LeastGap(multiset(xs), minGap)
  {
    minGap := None;
    for k := 0 to |xs| - 1
      invariant LeastStep(xs, k + 1, minGap)
    {
      var gap := Abs(xs[k + 1] - xs[k]);
      StepAdded(xs, k, minGap);
      if gap > 0.0 && (minGap.None? || gap < minGap.value) {
        minGap := Some(gap);
      }
    }
    NeighboursAreNearest(xs, minGap);
  }

  /** Seventy per cent of the smallest positive gap, a fixed width when there is none. */
  ghost predicate IsBarWidth(points: seq<Point>, width: real) {
    if |points| < 2 then width == 0.5
    else exists gap :: LeastGap(multiset(Xs(points)), gap) && width == if gap.Some? then gap.value * 0.7 else 0.5
  }

  method BarWidth(points: seq<Point>) returns (width: real)
    ensures IsBarWidth(points, width)
  {
    if |points| < 2 {
      return 0.5;
    }
    var xs := SortedReals(Xs(points));
    SortIsSorted(Xs(points));
    SameCount(xs, Xs(points));
    var minGap := MinGap(xs);
    width := if minGap.None? then 0.5 else minGap.value * 0.7;
  }

  lemma SameCount(a: seq<real>, b: seq<real>)
    requires multiset(a) == multiset(b)
    ensures |a| == |b|
  {
    assert |a| == |multiset(a)|;
  }

  lemma StepAdded(xs: seq<real>, k: nat, before: Option<real>)
    requires k + 1 < |xs| && xs[k] <= xs[k + 1] && LeastStep(xs, k + 1, before)
    ensures
      var gap := xs[k + 1] - xs[k];
      LeastStep(xs, k + 2, if gap > 0.0 && (before.None? || gap < before.value) then Some(gap) else before)
  {
  }

  lemma XsHold(points: seq<Point>, i: nat)
    requires i < |points|
    ensures Xs(points)[i] == points[i].x && points[i].x in multiset(Xs(points))
  {
    assert Xs(points)[i] in multiset(Xs(points));
  }

  lemma NarrowBarsApart(points: seq<Point>, gap: Option<real>, width: real)
    requires LeastGap(multiset(Xs(points)), gap) && (gap.None? || width <= gap.value)
    ensures AllApart(points, width)
  {
    forall i, j | 0 <= i < |points| && 0 <= j < |points| && points[i].x != points[j].x
      ensures Apart(BarAt(points[i], width), BarAt(points[j], width))
    {
      XsHold(points, i);
      XsHold(points, j);
    }
  }

  lemma ApartBarsAreNarrow(points: seq<Point>, gap: real, width: real)
    requires LeastGap(multiset(Xs(points)), Some(gap)) && AllApart(points, width)
    ensures width <= gap
  {
    var xs := Xs(points);
    var x, y :| x in multiset(xs) && y in multiset(xs) && y - x == gap;
    var i :| 0 <= i < |xs| && xs[i] == x;
    var j :| 0 <= j < |xs| && xs[j] == y;
    assert points[i].x == x && points[j].x == y;
    assert Apart(BarAt(points[i], width), BarAt(points[j], width));
  }

  /** Bars of one width stay apart exactly up to the least gap; where all share one place any width will do. */
  lemma WidestSafeWidth(points: seq<Point>, gap: Option<real>, width: real)
    requires LeastGap(multiset(Xs(points)), gap)
    ensures AllApart(points, width) <==> gap.None? || width <= gap.value
  {
    if gap.None? || width <= gap.value {
      NarrowBarsApart(points, gap, width);
    } else if AllApart(points, width) {
      ApartBarsAreNarrow(points, gap.value, width);
    }
  }

  /** The width depends on where the points are, not on their order. */
  lemma OrderDoesNotChangeWidth(points: seq<Point>, others: seq<Point>, width: real, otherWidth: real)
    requires multiset(Xs(points)) == multiset(Xs(others))
    requires IsBarWidth(points, width) && IsBarWidth(others, otherWidth)
    ensures width == otherWidth
  {
    SameCount(Xs(points), Xs(others));
    if |points| >= 2 {
      var gap :| LeastGap(multiset(Xs(points)), gap) && width == if gap.Some? then gap.value * 0.7 else 0.5;
      var other :| LeastGap(multiset(Xs(others)), other) && otherWidth == if other.Some? then other.value * 0.7 else 0.5;
      LeastGapIsUnique(multiset(Xs(points)), gap, other);
    }
  }

  lemma BarWidthIsSafe(points: seq<Point>, width: real)
    requires IsBarWidth(points, width)
    ensures width > 0.0 && AllApart(points, width)
  {
    if |points| >= 2 {
      var gap :| LeastGap(multiset(Xs(points)), gap) && width == if gap.Some? then gap.value * 0.7 else 0.5;
      WidestSafeWidth(points, gap, width);
    }
  }

  /** Bars drawn at different places never overlap. */
  method DrawBars(points: seq<Point>) returns (bars: seq<Bar>)
    ensures |bars| == |points|
    ensures exists width ::
      IsBarWidth(points, width) && forall i :: 0 <= i < |points| ==> bars[i].right - bars[i].left == width
    ensures forall i :: 0 <= i < |points| ==> bars[i].left + bars[i].right == 2.0 * points[i].x && bars[i].left < bars[i].right
    ensures forall i, j :: 0 <= i < |points| && 0 <= j < |points| && points[i].x != points[j].x ==> Apart(bars[i], bars[j])
  {
    var width := BarWidth(points);
    BarWidthIsSafe(points, width);
    bars := seq(|points|, i requires 0 <= i < |points| => BarAt(points[i], width));
  }

  // ----- axis bounds ----------------------------------------------------------------------------

  datatype Band = Band(low: seq<Point>, high: seq<Point>)
  datatype Chart = Chart(series: seq<seq<Point>>, band: Option<Band>)

  function Concat(series: seq<seq<Point>>): seq<Point> {
    if series == [] then [] else Concat(series[..|series| - 1]) + series[|series| - 1]
  }

  /** Every point drawn. */
  function Drawn(chart: Chart): seq<Point> {
    Concat(chart.series) + if chart.band.Some? then chart.band.value.low + chart.band.value.high else []
  }

  datatype Bounds = Bounds(xMin: real, xMax: real, yMin: real, yMax: real)

  ghost predicate Encloses(b: Bounds, points: seq<Point>) {
    forall p <- points :: b.xMin <= p.x <= b.xMax && b.yMin <= p.y <= b.yMax
  }

  /** The smallest enclosing box: each side touches a point. */
  ghost predicate Tight(b: Bounds, points: seq<Point>) {
    && Encloses(b, points)
    && (exists p <- points :: p.x == b.xMin) && (exists p <- points :: p.x == b.xMax)
    && (exists p <- points :: p.y == b.yMin) && (exists p <- points :: p.y == b.yMax)
  }

  /** The running extremes; none as long as they are the two infinities. */
  ghost predicate Running(extremes: Option<Bounds>, points: seq<Point>) {
    (extremes.None? <==> points == []) && (extremes.Some? ==> Tight(extremes.value, points))
  }

  method Push(p: Point, extremes: Option<Bounds>, ghost points: seq<Point>) returns (next: Option<Bounds>)
    requires Running(extremes, points)
    ensures Running(next, points + [p])
  {
    if extremes.None? {
      next := Some(Bounds(p.x, p.x, p.y, p.y));
      assert (points + [p])[0] == p;
    } else {
      var b := extremes.value;
      if p.x < b.xMin { b := b.(xMin := p.x); }
      if p.x > b.xMax { b := b.(xMax := p.x); }
      if p.y < b.yMin { b := b.(yMin := p.y); }
      if p.y > b.yMax { b := b.(yMax := p.y); }
      next := Some(b);
      PushIsTight(extremes.value, b, points, p);
    }
  }

  lemma PushIsTight(b: Bounds, c: Bounds, points: seq<Point>, p: Point)
    requires Tight(b, points)
    requires c.xMin == (if p.x < b.xMin then p.x else b.xMin) && c.xMax == (if p.x > b.xMax then p.x else b.xMax)
    requires c.yMin == (if p.y < b.yMin then p.y else b.yMin) && c.yMax == (if p.y > b.yMax then p.y else b.yMax)
    ensures Tight(c, points + [p])
  {
    assert p in points + [p];
    assert forall q <- points :: q in points + [p];
  }

  method PushAll(more: seq<Point>, extremes: Option<Bounds>, ghost points: seq<Point>) returns (next: Option<Bounds>)
    requires Running(extremes, points)
    ensures Running(next, points + more)
  {
    next := extremes;
    assert points + more[..0] == points;
    for i := 0 to |more|
      invariant Running(next, points + more[..i])
    {
      next := Push(more[i], next, points + more[..i]);
      assert points + more[..i] + [more[i]] == points + more[..i + 1];
    }
    assert more[..|more|] == more;
  }

  lemma ConcatOneMore(series: seq<seq<Point>>, i: nat)
    requires i < |series|
    ensures Concat(series[..i + 1]) == Concat(series[..i]) + series[i]
  {
    assert series[..i + 1][..i] == series[..i];
  }

  lemma ConcatAll(series: seq<seq<Point>>)
    ensures Concat(series[..|series|]) == Concat(series)
  {
    assert series[..|series|] == series;
  }

  /** The tight box of everything drawn, or the neutral axis when nothing is. */
  method ComputeBounds(chart: Chart) returns (b: Bounds)
    ensures if Drawn(chart) == [] then b == Bounds(0.0, 1.0, 0.0, 1.0) else Tight(b, Drawn(chart))
  {
    var extremes: Option<Bounds> := None;
    for i := 0 to |chart.series|
      invariant Running(extremes, Concat(chart.series[..i]))
    {
      extremes := PushAll(chart.series[i], extremes, Concat(chart.series[..i]));
      ConcatOneMore(chart.series, i);
    }
    ConcatAll(chart.series);
    extremes := PushBand(chart, extremes);
    b := if extremes.Some? then extremes.value else Bounds(0.0, 1.0, 0.0, 1.0);
  }

  method PushBand(chart: Chart, extremes: Option<Bounds>) returns (next: Option<Bounds>)
    requires Running(extremes, Concat(chart.series))
    ensures Running(next, Drawn(chart))
  {
    ghost var points := Concat(chart.series);
    next := extremes;
    match chart.band
    case None => assert points + [] == points;
    case Some(band) =>
      next := PushAll(band.low, next, points);
      next := PushAll(band.high, next, points + band.low);
      assert points + band.low + band.high == points + (band.low + band.high);
  }
}
