/**
  draw_line of tools/bb-display-test.c. The incremental loop is proved against a closed form: the k-th
  point is the ideal line sampled at the k-th step along the longer axis, the other coordinate rounded
  to the nearest pixel, halves away from the start point.
*/
module LineDrawing {
  import opened Common

  type Color = bv32

  function Abs(x: int): nat { if x >= 0 then x else -x }
  function Max(a: int, b: int): int { if a >= b then a else b }
  function Min(a: int, b: int): int { if a <= b then a else b }

  /** a / m rounded to the nearest integer, halves up. */
  function Nearest(a: nat, m: nat): nat
    requires m >= 1
  {
    (2 * a + m) / (2 * m)
  }

  datatype Line = Line(x0: int, y0: int, x1: int, y1: int) {
    function Dx(): nat { Abs(x1 - x0) }
    function Dy(): nat { Abs(y1 - y0) }
    function Steps(): nat { Max(Dx(), Dy()) }
    function Sx(): int { if x0 < x1 then 1 else -1 }
    function Sy(): int { if y0 < y1 then 1 else -1 }

    /** Steps taken along x, and along y, after k iterations. */
    function XSteps(k: nat): nat { if Steps() == 0 then 0 else Nearest(k * Dx(), Steps()) }
    function YSteps(k: nat): nat { if Steps() == 0 then 0 else Nearest(k * Dy(), Steps()) }

    function PointAt(k: nat): (int, int) { (x0 + Sx() * XSteps(k), y0 + Sy() * YSteps(k)) }

    function Reversed(): Line { Line(x1, y1, x0, y0) }
  }

  // ---- Rounding ----

  lemma DivisionBounds(a: nat, m: nat)
    requires m >= 1
    ensures m * (a / m) <= a < m * (a / m + 1)
  {
    assert a == m * (a / m) + a % m;
  }

  lemma NearestBounds(a: nat, m: nat)
    requires m >= 1
    ensures 2 * m * Nearest(a, m) <= 2 * a + m < 2 * m * Nearest(a, m) + 2 * m
  {
    DivisionBounds(2 * a + m, 2 * m);
  }

  lemma NearestIs(a: nat, m: nat, q: nat)
    requires m >= 1 && 2 * m * q <= 2 * a + m < 2 * m * q + 2 * m
    ensures Nearest(a, m) == q
  {
    NearestBounds(a, m);
    Gap(2 * m, q, Nearest(a, m));
    Gap(2 * m, Nearest(a, m), q);
  }

  lemma NearestOfMultiple(k: nat, m: nat)
    requires m >= 1
    ensures Nearest(k * m, m) == k
  {
    NearestIs(k * m, m, k);
  }

  lemma NextMultiple(c: nat, j: nat)
    ensures c * (j + 1) == c * j + c && (j + 1) * c == j * c + c
  {
  }

  lemma NearestAfter(a: nat, d: nat, m: nat)
    requires m >= 1 && d <= m
    ensures var j := Nearest(a, m);
            Nearest(a + d, m) == j + if 2 * m * j + m <= 2 * a + 2 * d then 1 else 0
  {
    var j := Nearest(a, m);
    NearestBounds(a, m);
    NextMultiple(2 * m, j);
    if 2 * m * j + m <= 2 * a + 2 * d { NearestIs(a + d, m, j + 1); } else { NearestIs(a + d, m, j); }
  }

  /** One more step along the longer axis m moves the rounded shorter coordinate on by this much. */
  lemma NextNearest(k: nat, d: nat, m: nat)
    requires m >= 1 && d <= m
    ensures var j := Nearest(k * d, m);
            Nearest((k + 1) * d, m) == j + if 2 * m * j + m <= 2 * (k * d) + 2 * d then 1 else 0
  {
    NextMultiple(d, k);
    NearestAfter(k * d, d, m);
  }

  // ---- The error term ----

  /** The two tests of the loop body, on e2 = 2 * err. */
  predicate MovesX(l: Line, e2: int) { e2 + l.Dy() >= 0 }
  predicate MovesY(l: Line, e2: int) { e2 <= l.Dx() }

  /** The value of `err` after i steps along x and j along y. */
  function ErrAfter(l: Line, i: int, j: int): int { (j + 1) * l.Dx() - (i + 1) * l.Dy() }

  /** The error term against the rounding interval, with a = k * d and b = m * j. */
  lemma ErrorInterval(m: nat, d: nat, a: nat, b: nat, err: int)
    requires d <= m && 2 * b <= 2 * a + m < 2 * b + 2 * m && err == (b + m) - (a + d)
    ensures 2 * err + d >= 0 && -3 * m <= 2 * err <= 3 * m
    ensures 2 * err <= m <==> 2 * b + m <= 2 * a + 2 * d
  {
  }

  lemma ExpandError(m: nat, d: nat, k: nat, j: nat)
    ensures (j + 1) * m - (k + 1) * d == (m * j + m) - (k * d + d)
    ensures 2 * m * j == 2 * (m * j)
  {
  }

  /** Along the longer axis m the first test always fires; the second one is the rounding of the shorter axis d. */
  lemma StepArithmetic(m: nat, d: nat, k: nat, j: nat)
    requires 1 <= m && d <= m && k < m
    requires j == Nearest(k * d, m)
    ensures var err := (j + 1) * m - (k + 1) * d;
            && 2 * err + d >= 0
            && Nearest((k + 1) * d, m) == j + (if 2 * err <= m then 1 else 0)
            && -3 * m <= 2 * err <= 3 * m
  {
    NearestBounds(k * d, m);
    ExpandError(m, d, k, j);
    ErrorInterval(m, d, k * d, m * j, (j + 1) * m - (k + 1) * d);
    NextNearest(k, d, m);
  }

  lemma StepTestsFlat(l: Line, k: nat)
    requires k < l.Steps() && l.Dy() <= l.Dx()
    ensures var e2 := 2 * ErrAfter(l, l.XSteps(k), l.YSteps(k));
            && MovesX(l, e2) && l.XSteps(k) == k && l.XSteps(k + 1) == k + 1
            && l.YSteps(k + 1) == l.YSteps(k) + (if MovesY(l, e2) then 1 else 0)
            && -3 * l.Steps() <= e2 <= 3 * l.Steps()
  {
    NearestOfMultiple(k, l.Dx());
    NearestOfMultiple(k + 1, l.Dx());
    StepArithmetic(l.Dx(), l.Dy(), k, l.YSteps(k));
  }

  lemma StepTestsSteep(l: Line, k: nat)
    requires k < l.Steps() && l.Dx() < l.Dy()
    ensures var e2 := 2 * ErrAfter(l, l.XSteps(k), l.YSteps(k));
            && l.XSteps(k + 1) == l.XSteps(k) + (if MovesX(l, e2) then 1 else 0)
            && MovesY(l, e2) && l.YSteps(k) == k && l.YSteps(k + 1) == k + 1
            && -3 * l.Steps() <= e2 <= 3 * l.Steps()
  {
    var i := l.XSteps(k);
    NearestOfMultiple(k, l.Dy());
    NearestOfMultiple(k + 1, l.Dy());
    StepArithmetic(l.Dy(), l.Dx(), k, i);
    assert ErrAfter(l, i, k) == -((i + 1) * l.Dy() - (k + 1) * l.Dx());
  }

  /** The two tests of the loop move the point from sample k to sample k + 1, and 2 * err stays small. */
  lemma StepTests(l: Line, k: nat)
    requires k < l.Steps()
    ensures var e2 := 2 * ErrAfter(l, l.XSteps(k), l.YSteps(k));
            && l.XSteps(k + 1) == l.XSteps(k) + (if MovesX(l, e2) then 1 else 0)
            && l.YSteps(k + 1) == l.YSteps(k) + (if MovesY(l, e2) then 1 else 0)
            && -3 * l.Steps() <= e2 <= 3 * l.Steps()
  {
    if l.Dy() <= l.Dx() { StepTestsFlat(l, k); } else { StepTestsSteep(l, k); }
  }

  // ---- Geometry of the sampled line ----

  lemma Scale(a: nat, b: nat, c: nat)
    requires a <= b
    ensures a * c <= b * c
  {
    var d := b - a;
    assert (a + d) * c == a * c + d * c;
  }

  lemma Twice(m: nat, x: nat)
    ensures 2 * m * x == 2 * (m * x)
  {
  }

  lemma StepsBounded(k: nat, d: nat, m: nat)
    requires m >= 1 && d <= m && k <= m
    ensures Nearest(k * d, m) <= d
  {
    NearestBounds(k * d, m);
    Scale(k, m, d);
    Gap(2 * m, d, Nearest(k * d, m));
    Twice(m, d);
  }

  lemma StepsAtEnds(d: nat, m: nat)
    requires m >= 1
    ensures Nearest(m * d, m) == d && Nearest(0 * d, m) == 0
  {
    NearestIs(0, m, 0);
    Twice(m, d);
    NearestIs(m * d, m, d);
  }

  /** The samples start and finish at the endpoints and never leave the box they span. */
  lemma PointsWithinBox(l: Line, k: nat)
    requires k <= l.Steps()
    ensures l.PointAt(0) == (l.x0, l.y0) && l.PointAt(l.Steps()) == (l.x1, l.y1)
    ensures Min(l.x0, l.x1) <= l.PointAt(k).0 <= Max(l.x0, l.x1)
    ensures Min(l.y0, l.y1) <= l.PointAt(k).1 <= Max(l.y0, l.y1)
  {
    if l.Steps() >= 1 {
      StepsBounded(k, l.Dx(), l.Steps());
      StepsBounded(k, l.Dy(), l.Steps());
      StepsAtEnds(l.Dx(), l.Steps());
      StepsAtEnds(l.Dy(), l.Steps());
    }
  }

  /** Consecutive samples are neighbours, exactly one step apart along the longer axis. */
  lemma PointsAdjacent(l: Line, k: nat)
    requires k < l.Steps()
    ensures 0 <= l.XSteps(k + 1) - l.XSteps(k) <= 1 && 0 <= l.YSteps(k + 1) - l.YSteps(k) <= 1
    ensures (if l.Dy() <= l.Dx() then l.XSteps(k) else l.YSteps(k)) == k
  {
    StepTests(l, k);
    NearestOfMultiple(k, l.Steps());
  }

  /** No point is plotted twice. */
  lemma PointsDistinct(l: Line, k: nat, n: nat)
    requires k < n <= l.Steps()
    ensures l.PointAt(k) != l.PointAt(n)
  {
    NearestOfMultiple(k, l.Steps());
    NearestOfMultiple(n, l.Steps());
    assert l.Sx() * k != l.Sx() * n && l.Sy() * k != l.Sy() * n;
  }

  lemma NearestError(k: nat, d: nat, m: nat)
    requires m >= 1
    ensures 2 * Abs(k * d - Nearest(k * d, m) * m) <= m
  {
    NearestBounds(k * d, m);
    assert 2 * m * Nearest(k * d, m) == 2 * (Nearest(k * d, m) * m);
  }

  /** Every plotted point is within half a pixel of the ideal line, measured along the shorter axis. */
  lemma WithinHalfPixel(l: Line, k: nat)
    requires k <= l.Steps()
    ensures 2 * Abs(l.XSteps(k) * l.Dy() - l.YSteps(k) * l.Dx()) <= l.Steps()
  {
    if l.Steps() >= 1 {
      NearestOfMultiple(k, l.Steps());
      if l.Dy() <= l.Dx() {
        NearestError(k, l.Dy(), l.Dx());
      } else {
        NearestError(k, l.Dx(), l.Dy());
      }
    }
  }

  /** The interval that rounds to the mirrored sample, with a = k * d, md = m * d and mn = m * n. */
  lemma MirroredInterval(m: nat, md: nat, a: nat, mn: nat, q2m: int)
    requires a <= md && 2 * mn <= 2 * a + m < 2 * mn + 2 * m
    requires q2m == 2 * md - 2 * mn + if 2 * a + m == 2 * mn then 2 * m else 0
    ensures q2m <= 2 * (md - a) + m < q2m + 2 * m
  {
  }

  lemma Remainder(k: nat, m: nat, d: nat)
    requires k <= m
    ensures (m - k) * d == m * d - k * d
  {
  }

  lemma MirroredQuotient(m: nat, d: nat, n: nat, q: nat)
    requires n <= d && (q == d - n || q == d - n + 1)
    ensures 2 * m * q == 2 * (m * d) - 2 * (m * n) + if q == d - n then 0 else 2 * m
  {
    assert m * (d - n) == m * d - m * n;
    assert m * (d - n + 1) == m * d - m * n + m;
    Twice(m, q);
  }

  /** Rounding the distance still to go gives what is left of the rounded distance, one more at a tie. */
  lemma MirroredSample(k: nat, d: nat, m: nat)
    requires m >= 1 && d <= m && k <= m
    ensures var n := Nearest(k * d, m);
            Nearest((m - k) * d, m) == d - n + if 2 * (k * d) + m == 2 * (m * n) then 1 else 0
  {
    var n, a := Nearest(k * d, m), k * d;
    NearestBounds(a, m);
    StepsBounded(k, d, m);
    Remainder(k, m, d);
    Scale(k, m, d);
    Twice(m, n);
    var q := d - n + if 2 * a + m == 2 * (m * n) then 1 else 0;
    MirroredQuotient(m, d, n, q);
    MirroredInterval(m, m * d, a, m * n, 2 * m * q);
    NearestIs((m - k) * d, m, q);
  }

  /** The ideal line passes midway between two pixels: the half-pixel bound is met with equality. */
  predicate Tie(l: Line, k: nat) {
    l.Steps() >= 1 && 2 * Abs(l.XSteps(k) * l.Dy() - l.YSteps(k) * l.Dx()) == l.Steps()
  }

  lemma TieIsHalf(k: nat, d: nat, m: nat)
    requires m >= 1
    ensures 2 * Abs(k * d - Nearest(k * d, m) * m) == m <==> 2 * (k * d) + m == 2 * (m * Nearest(k * d, m))
  {
    NearestBounds(k * d, m);
    Twice(m, Nearest(k * d, m));
    assert Nearest(k * d, m) * m == m * Nearest(k * d, m);
  }

  /** How far the samples of the two directions are apart along either axis. */
  lemma MirroredSteps(l: Line, k: nat)
    requires l.Steps() >= 1 && k <= l.Steps()
    ensures l.Reversed().XSteps(l.Steps() - k) ==
            l.Dx() - l.XSteps(k) + if Tie(l, k) && l.Dx() < l.Dy() then 1 else 0
    ensures l.Reversed().YSteps(l.Steps() - k) ==
            l.Dy() - l.YSteps(k) + if Tie(l, k) && l.Dy() <= l.Dx() then 1 else 0
  {
    var m := l.Steps();
    NearestOfMultiple(k, m);
    NearestOfMultiple(m - k, m);
    if l.Dy() <= l.Dx() {
      MirroredSample(k, l.Dy(), m);
      TieIsHalf(k, l.Dy(), m);
    } else {
      MirroredSample(k, l.Dx(), m);
      TieIsHalf(k, l.Dx(), m);
    }
  }

  /** A coordinate reached from one end by i of n steps, and from the other by j. */
  lemma FromBothEnds(c0: int, c1: int, i: int, j: int, up: int, down: int)
    requires c0 < c1 ==> up == 1 && down == -1
    requires c1 < c0 ==> up == -1 && down == 1
    requires c0 != c1
    ensures c1 + down * j == c0 + up * i <==> i + j == Abs(c1 - c0)
  {
  }

  /**
    Drawn from its other end, a line visits the same points except at ties, where the ideal line passes
    exactly between two pixels: there, and only there, the two directions choose differently.
  */
  lemma ReversalDiffersOnlyAtTies(l: Line, k: nat)
    requires k <= l.Steps()
    ensures l.Reversed().PointAt(l.Steps() - k) == l.PointAt(k) <==> !Tie(l, k)
  {
    if l.Steps() >= 1 {
      var r, back := l.Reversed(), l.Steps() - k;
      MirroredSteps(l, k);
      StepsBounded(k, l.Dx(), l.Steps());
      StepsBounded(k, l.Dy(), l.Steps());
      StepsBounded(back, l.Dx(), l.Steps());
      StepsBounded(back, l.Dy(), l.Steps());
      if l.Dx() > 0 { FromBothEnds(l.x0, l.x1, l.XSteps(k), r.XSteps(back), l.Sx(), r.Sx()); }
      if l.Dy() > 0 { FromBothEnds(l.y0, l.y1, l.YSteps(k), r.YSteps(back), l.Sy(), r.Sy()); }
    }
  }

  // ---- The program ----

  /** A pixel store at (x, y) lands on framebuffer word p; negative coordinates are skipped. */
  predicate Lands(point: (int, int), stride: nat, p: int) {
    point.0 >= 0 && point.1 >= 0 && point.1 * stride + point.0 == p
  }

  predicate LandsAt(l: Line, stride: nat, k: nat, p: int) { Lands(l.PointAt(k), stride, p) }

  ghost predicate Covered(l: Line, stride: nat, p: int) {
    exists k: nat :: k <= l.Steps() && LandsAt(l, stride, k, p)
  }

  predicate Inside(point: (int, int), stride: nat, size: nat) {
    point.0 >= 0 && point.1 >= 0 ==> 0 <= point.1 * stride + point.0 < size
  }

  /** Every point of the line that is not clipped lies inside the framebuffer. */
  ghost predicate Fits(l: Line, stride: nat, size: nat) {
    forall k: nat :: k <= l.Steps() ==> Inside(l.PointAt(k), stride, size)
  }

  lemma InsideBelow(x: int, y: int, right: int, bottom: int, stride: nat, size: nat)
    requires x <= right && y <= bottom && bottom * stride + right < size
    ensures Inside((x, y), stride, size)
  {
    if x >= 0 && y >= 0 { Scale(y, bottom, stride); }
  }

  /** In particular when the box spanned by the endpoints does. */
  lemma BoxFits(l: Line, stride: nat, size: nat)
    requires Max(l.y0, l.y1) * stride + Max(l.x0, l.x1) < size
    ensures Fits(l, stride, size)
  {
    forall k: nat | k <= l.Steps() ensures Inside(l.PointAt(k), stride, size) {
      PointsWithinBox(l, k);
      InsideBelow(l.PointAt(k).0, l.PointAt(k).1, Max(l.x0, l.x1), Max(l.y0, l.y1), stride, size);
    }
  }

  method PutPixel(fb: array<Color>, stride: nat, x: int, y: int, color: Color)
    requires Inside((x, y), stride, fb.Length)
    modifies fb
    ensures forall p :: 0 <= p < fb.Length ==> fb[p] == if Lands((x, y), stride, p) then color else old(fb[p])
  {
    if x >= 0 && y >= 0 { fb[y * stride + x] := color; }
  }

  ghost predicate CoveredBefore(l: Line, stride: nat, n: nat, p: int) {
    exists k: nat :: k < n && LandsAt(l, stride, k, p)
  }

  lemma CoverOneMore(l: Line, stride: nat, n: nat, p: int)
    ensures CoveredBefore(l, stride, n + 1, p) <==> CoveredBefore(l, stride, n, p) || LandsAt(l, stride, n, p)
  {
  }

  lemma CoveredAtEnd(l: Line, stride: nat, p: int)
    ensures CoveredBefore(l, stride, l.Steps() + 1, p) == Covered(l, stride, p)
  {
  }

  lemma StartOfLine(l: Line)
    ensures l.XSteps(0) == 0 && l.YSteps(0) == 0
  {
    if l.Steps() >= 1 {
      StepsAtEnds(l.Dx(), l.Steps());
      StepsAtEnds(l.Dy(), l.Steps());
    }
  }

  /** The exit test fires at the last sample and at no earlier one. */
  lemma EndOfLine(l: Line, k: nat)
    requires k <= l.Steps()
    ensures l.PointAt(k) == (l.x1, l.y1) <==> k == l.Steps()
  {
    PointsWithinBox(l, k);
    if k < l.Steps() { PointsDistinct(l, k, l.Steps()); }
  }

  function ErrAt(l: Line, k: nat): int { ErrAfter(l, l.XSteps(k), l.YSteps(k)) }

  lemma ErrorMoves(l: Line, i: int, j: int)
    ensures ErrAfter(l, i + 1, j) == ErrAfter(l, i, j) - l.Dy()
    ensures ErrAfter(l, i, j + 1) == ErrAfter(l, i, j) + l.Dx()
  {
    assert (j + 2) * l.Dx() == (j + 1) * l.Dx() + l.Dx();
    assert (i + 2) * l.Dy() == (i + 1) * l.Dy() + l.Dy();
  }

  lemma OneStepOf(s: int, n: int)
    ensures s * (n + 1) == s * n + s
  {
  }

  /** The body of the loop takes the state of sample k to that of sample k + 1. */
  lemma Advance(l: Line, k: nat, x: int, y: int, err: int)
    requires k < l.Steps() && (x, y) == l.PointAt(k) && err == ErrAt(l, k)
    ensures var mx, my := MovesX(l, 2 * err), MovesY(l, 2 * err);
            && (if mx then x + l.Sx() else x, if my then y + l.Sy() else y) == l.PointAt(k + 1)
            && err - (if mx then l.Dy() else 0) + (if my then l.Dx() else 0) == ErrAt(l, k + 1)
  {
    var i, j := l.XSteps(k), l.YSteps(k);
    StepTests(l, k);
    OneStepOf(l.Sx(), i);
    OneStepOf(l.Sy(), j);
    ErrorMoves(l, i, j);
    ErrorMoves(l, i + 1, j);
    ErrorMoves(l, i, j + 1);
  }

  /** `fb` is `before` with the first n samples drawn over it. */
  ghost predicate Drawn(fb: seq<Color>, before: seq<Color>, l: Line, stride: nat, n: nat, color: Color) {
    && |fb| == |before|
    && forall p :: 0 <= p < |fb| ==> fb[p] == if CoveredBefore(l, stride, n, p) then color else before[p]
  }

  method PlotSample(fb: array<Color>, stride: nat, l: Line, ghost k: nat, x: int, y: int, color: Color,
                    ghost before: seq<Color>)
    requires (x, y) == l.PointAt(k) && Inside((x, y), stride, fb.Length) && Drawn(fb[..], before, l, stride, k, color)
    modifies fb
    ensures Drawn(fb[..], before, l, stride, k + 1, color)
  {
    PutPixel(fb, stride, x, y, color);
    forall p | 0 <= p < fb.Length ensures fb[p] == if CoveredBefore(l, stride, k + 1, p) then color else before[p] {
      CoverOneMore(l, stride, k, p);
    }
  }

  /**
    Plots exactly the samples 0, ..., Steps() of the closed form, one in each iteration and in that order,
    and touches no other word.
  */
  method DrawLine(fb: array<Color>, stride: nat, l: Line, color: Color) returns (ghost plotted: seq<(int, int)>)
    requires Fits(l, stride, fb.Length)
    modifies fb
    ensures |plotted| == l.Steps() + 1 && forall k :: 0 <= k <= l.Steps() ==> plotted[k] == l.PointAt(k)
    ensures forall p :: 0 <= p < fb.Length ==> fb[p] == if Covered(l, stride, p) then color else old(fb[p])
  {
    var x, y := l.x0, l.y0;
    var dx, sx := Abs(l.x1 - l.x0), if l.x0 < l.x1 then 1 else -1;
    var dy: int, sy := -(Abs(l.y1 - l.y0) as int), if l.y0 < l.y1 then 1 else -1;
    var err := dx + dy;
    ghost var k: nat := 0;
    plotted := [];
    PointsWithinBox(l, 0);
    StartOfLine(l);
    while true
      invariant k <= l.Steps()
      invariant (x, y) == l.PointAt(k) && err == ErrAt(l, k)
      invariant |plotted| == k && forall i :: 0 <= i < k ==> plotted[i] == l.PointAt(i)
      invariant Drawn(fb[..], old(fb[..]), l, stride, k, color)
      decreases l.Steps() - k
    {
      assert Inside((x, y), stride, fb.Length);
      PlotSample(fb, stride, l, k, x, y, color, old(fb[..]));
      plotted := plotted + [(x, y)];
      EndOfLine(l, k);
      if x == l.x1 && y == l.y1 { break; }
      Advance(l, k, x, y, err);
      var e2 := 2 * err;
      if e2 >= dy {
        err := err + dy;
        x := x + sx;
      }
      if e2 <= dx {
        err := err + dx;
        y := y + sy;
      }
      k := k + 1;
    }
    forall p ensures CoveredBefore(l, stride, k + 1, p) == Covered(l, stride, p) { CoveredAtEnd(l, stride, p); }
  }
}
