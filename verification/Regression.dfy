/** Ordinary least squares over a list of points; floats are idealised to reals. */
module Regression {
  import opened Sequences

  datatype Point = Point(x: real, y: real)

  datatype Fit = Fit(slope: real, intercept: real, r2: real)

  function Square(x: real): real {
    x * x
  }

  function Product(x: real, y: real): real {
    x * y
  }

  // ---- sums ----

  function SumX(ps: seq<Point>): real {
    if ps == [] then 0.0 else SumX(ps[..|ps| - 1]) + ps[|ps| - 1].x
  }

  function SumY(ps: seq<Point>): real {
    if ps == [] then 0.0 else SumY(ps[..|ps| - 1]) + ps[|ps| - 1].y
  }

  /** Sum of products of the deviations from (mx, my). */
  function SumXY(ps: seq<Point>, mx: real, my: real): real {
    if ps == [] then 0.0
    else SumXY(ps[..|ps| - 1], mx, my) + Product(ps[|ps| - 1].x - mx, ps[|ps| - 1].y - my)
  }

  function SumXX(ps: seq<Point>, mx: real): real {
    if ps == [] then 0.0
    else SumXX(ps[..|ps| - 1], mx) + Square(ps[|ps| - 1].x - mx)
  }

  function SumYY(ps: seq<Point>, my: real): real {
    if ps == [] then 0.0
    else SumYY(ps[..|ps| - 1], my) + Square(ps[|ps| - 1].y - my)
  }

  function Residual(p: Point, a: real, b: real): real {
    p.y - (a + Product(b, p.x))
  }

  /** Sum of squared residuals of the line a + b x. */
  function Loss(ps: seq<Point>, a: real, b: real): real {
    if ps == [] then 0.0
    else Loss(ps[..|ps| - 1], a, b) + Square(Residual(ps[|ps| - 1], a, b))
  }

  function MeanX(ps: seq<Point>): real
    requires ps != []
  {
    SumX(ps) / |ps| as real
  }

  function MeanY(ps: seq<Point>): real
    requires ps != []
  {
    SumY(ps) / |ps| as real
  }

  function Clamp01(x: real): real {
    var capped := if x > 1.0 then 1.0 else x;
    if capped < 0.0 then 0.0 else capped
  }

  /** The fitted line, branch by branch. */
  function Regress(ps: seq<Point>): Fit {
    if ps == [] then Fit(0.0, 0.0, 0.0)
    else
      var mx, my := MeanX(ps), MeanY(ps);
      if |ps| == 1 then Fit(0.0, my, 0.0)
      else
        var xy, xx, yy := SumXY(ps, mx, my), SumXX(ps, mx), SumYY(ps, my);
        if xx == 0.0 then Fit(0.0, my, 0.0)
        else
          var slope := xy / xx;
          var intercept := my - Product(slope, mx);
          if yy > 0.0 then Fit(slope, intercept, Clamp01(1.0 - Loss(ps, intercept, slope) / yy))
          else Fit(slope, intercept, 1.0)
  }

  method Means(points: seq<Point>) returns (meanX: real, meanY: real)
    requires points != []
    ensures meanX == MeanX(points) && meanY == MeanY(points)
  {
    var sumX, sumY := 0.0, 0.0;
    for i := 0 to |points|
      invariant sumX == SumX(points[..i]) && sumY == SumY(points[..i])
    {
      PrefixStep(points, i);
      sumX, sumY := sumX + points[i].x, sumY + points[i].y;
    }
    FullPrefix(points);
    meanX, meanY := sumX / |points| as real, sumY / |points| as real;
  }

  method Deviations(points: seq<Point>, meanX: real, meanY: real) returns (ssXY: real, ssXX: real, ssYY: real)
    ensures ssXY == SumXY(points, meanX, meanY)
    ensures ssXX == SumXX(points, meanX) && ssYY == SumYY(points, meanY)
  {
    ssXY, ssXX, ssYY := 0.0, 0.0, 0.0;
    for i := 0 to |points|
      invariant ssXY == SumXY(points[..i], meanX, meanY)
      invariant ssXX == SumXX(points[..i], meanX)
      invariant ssYY == SumYY(points[..i], meanY)
    {
      PrefixStep(points, i);
      var dx, dy := points[i].x - meanX, points[i].y - meanY;
      ssXY, ssXX, ssYY := ssXY + Product(dx, dy), ssXX + Square(dx), ssYY + Square(dy);
    }
    FullPrefix(points);
  }

  method SquaredResiduals(points: seq<Point>, intercept: real, slope: real) returns (ssRes: real)
    ensures ssRes == Loss(points, intercept, slope)
  {
    ssRes := 0.0;
    for i := 0 to |points|
      invariant ssRes == Loss(points[..i], intercept, slope)
    {
      PrefixStep(points, i);
      ssRes := ssRes + Square(Residual(points[i], intercept, slope));
    }
    FullPrefix(points);
  }

  method LinearRegression(points: seq<Point>) returns (fit: Fit)
    ensures fit == Regress(points)
  {
    if |points| == 0 {
      return Fit(0.0, 0.0, 0.0);
    }
    var meanX, meanY := Means(points);
    if |points| == 1 {
      return Fit(0.0, meanY, 0.0);
    }
    var ssXY, ssXX, ssYY := Deviations(points, meanX, meanY);
    if ssXX == 0.0 {
      return Fit(0.0, meanY, 0.0);
    }
    var slope := ssXY / ssXX;
    var intercept := meanY - Product(slope, meanX);
    var r2 := 1.0;
    if ssYY > 0.0 {
      var ssRes := SquaredResiduals(points, intercept, slope);
      r2 := Clamp01(1.0 - ssRes / ssYY);
    }
    fit := Fit(slope, intercept, r2);
  }

  // ---- least squares ----

  function SumResidual(ps: seq<Point>, a: real, b: real): real {
    if ps == [] then 0.0 else SumResidual(ps[..|ps| - 1], a, b) + Residual(ps[|ps| - 1], a, b)
  }

  function SumResidualX(ps: seq<Point>, a: real, b: real): real {
    if ps == [] then 0.0
    else SumResidualX(ps[..|ps| - 1], a, b) + Product(Residual(ps[|ps| - 1], a, b), ps[|ps| - 1].x)
  }

  /** Sum of squares of the line da + db x over the points. */
  function Spread(ps: seq<Point>, da: real, db: real): real {
    if ps == [] then 0.0
    else Spread(ps[..|ps| - 1], da, db) + Square(da + Product(db, ps[|ps| - 1].x))
  }

  // Algebra of products, kept out of the inductions.

  lemma SquareNonnegative(x: real)
    ensures Square(x) >= 0.0
    ensures Square(x) == 0.0 ==> x == 0.0
  {
    if x < 0.0 {
      PositiveProduct(-x, -x);
      assert x * x == (-x) * (-x);
    } else if x > 0.0 {
      PositiveProduct(x, x);
    }
  }

  lemma PositiveProduct(x: real, y: real)
    requires x > 0.0 && y > 0.0
    ensures Product(x, y) > 0.0
  {
  }

  lemma ProductAdds(u: real, x: real, y: real)
    ensures Product(u, x + y) == Product(u, x) + Product(u, y)
    ensures Product(x + y, u) == Product(x, u) + Product(y, u)
    ensures Product(u, x) == Product(x, u)
  {
  }

  lemma ProductSubtracts(u: real, x: real, y: real)
    ensures Product(u, x - y) == Product(u, x) - Product(u, y)
    ensures Product(x - y, u) == Product(x, u) - Product(y, u)
  {
  }

  lemma ProductAssociates(x: real, y: real, z: real)
    ensures Product(x, Product(y, z)) == Product(y, Product(x, z))
  {
  }

  lemma ProductZero(x: real)
    ensures Product(x, 0.0) == 0.0 && Product(0.0, x) == 0.0
  {
  }

  lemma SquareOfSum(r: real, d: real)
    ensures Square(r + d) == Square(r) + 2.0 * Product(r, d) + Square(d)
  {
  }

  lemma {:induction false} SpreadNonnegative(ps: seq<Point>, da: real, db: real)
    ensures Spread(ps, da, db) >= 0.0
    ensures Spread(ps, da, db) == 0.0 ==> forall i :: 0 <= i < |ps| ==> da + Product(db, ps[i].x) == 0.0
  {
    if ps != [] {
      SpreadNonnegative(ps[..|ps| - 1], da, db);
      SquareNonnegative(da + Product(db, ps[|ps| - 1].x));
    }
  }

  function Dot(u: real, v: real, x: real, y: real): real {
    Product(u, x) + Product(v, y)
  }

  lemma DotAdds(u: real, v: real, x: real, y: real, x2: real, y2: real)
    ensures Dot(u, v, x + x2, y + y2) == Dot(u, v, x, y) + Dot(u, v, x2, y2)
  {
    ProductAdds(u, x, x2);
    ProductAdds(v, y, y2);
  }

  lemma DotZero(u: real, v: real)
    ensures Dot(u, v, 0.0, 0.0) == 0.0
  {
    ProductZero(u);
    ProductZero(v);
  }

  /** One point's share in the comparison of two lines. */
  lemma PointFrom(p: Point, a: real, b: real, a2: real, b2: real)
    ensures var r, da, db := Residual(p, a, b), a - a2, b - b2;
      Square(Residual(p, a2, b2)) ==
      Square(r) + 2.0 * Dot(da, db, r, Product(r, p.x)) + Square(da + Product(db, p.x))
  {
    var r, da, db := Residual(p, a, b), a - a2, b - b2;
    var d := da + Product(db, p.x);
    ProductSubtracts(p.x, b, b2);
    assert Residual(p, a2, b2) == r + d;
    SquareOfSum(r, d);
    ProductAdds(r, da, Product(db, p.x));
    ProductAssociates(r, db, p.x);
    ProductAdds(r, da, 0.0);
    assert Product(r, d) == Dot(da, db, r, Product(r, p.x));
  }

  /** The loss of any line, seen from the line (a, b). */
  lemma {:induction false} LossFrom(ps: seq<Point>, a: real, b: real, a2: real, b2: real)
    ensures Loss(ps, a2, b2) ==
            Loss(ps, a, b)
            + 2.0 * Dot(a - a2, b - b2, SumResidual(ps, a, b), SumResidualX(ps, a, b))
            + Spread(ps, a - a2, b - b2)
  {
    if ps == [] {
      DotZero(a - a2, b - b2);
    } else {
      var init, p := ps[..|ps| - 1], ps[|ps| - 1];
      LossFrom(init, a, b, a2, b2);
      PointFrom(p, a, b, a2, b2);
      var r := Residual(p, a, b);
      DotAdds(a - a2, b - b2, SumResidual(init, a, b), SumResidualX(init, a, b), r, Product(r, p.x));
    }
  }

  /** The normal equations: residuals and residuals weighted by x both sum to nothing. */
  ghost predicate Balanced(ps: seq<Point>, a: real, b: real) {
    SumResidual(ps, a, b) == 0.0 && SumResidualX(ps, a, b) == 0.0
  }

  /** A balanced line loses no more than any other line. */
  lemma BalancedIsLeast(ps: seq<Point>, a: real, b: real, a2: real, b2: real)
    requires Balanced(ps, a, b)
    ensures Loss(ps, a2, b2) == Loss(ps, a, b) + Spread(ps, a - a2, b - b2)
    ensures Loss(ps, a, b) <= Loss(ps, a2, b2)
  {
    LossFrom(ps, a, b, a2, b2);
    SpreadNonnegative(ps, a - a2, b - b2);
    DotZero(a - a2, b - b2);
  }

  // ---- the fitted line is balanced ----

  lemma {:induction false} ResidualSums(ps: seq<Point>, a: real, b: real)
    ensures SumResidual(ps, a, b) == SumY(ps) - |ps| as real * a - Product(b, SumX(ps))
  {
    if ps == [] {
      ProductZero(b);
    } else {
      var init, p := ps[..|ps| - 1], ps[|ps| - 1];
      ResidualSums(init, a, b);
      assert |ps| as real * a == |init| as real * a + a;
      ProductAdds(b, SumX(init), p.x);
    }
  }

  /** A line of slope `b` through the centre of mass. */
  function Through(ps: seq<Point>, b: real): real
    requires ps != []
  {
    MeanY(ps) - Product(b, MeanX(ps))
  }

  lemma Scaled(n: real, my: real, mx: real, b: real)
    ensures n * (my - Product(b, mx)) == n * my - Product(b, n * mx)
  {
  }

  /** A line through the centre of mass has residuals that sum to nothing. */
  lemma ThroughTheCentre(ps: seq<Point>, b: real)
    requires ps != []
    ensures SumResidual(ps, Through(ps, b), b) == 0.0
  {
    var n, mx, my := |ps| as real, MeanX(ps), MeanY(ps);
    ResidualSums(ps, Through(ps, b), b);
    Quotient(SumX(ps), n);
    Quotient(SumY(ps), n);
    Scaled(n, my, mx, b);
  }

  lemma Quotient(x: real, y: real)
    requires y != 0.0
    ensures x / y * y == x == y * (x / y)
    ensures Product(x / y, y) == x
  {
  }

  lemma PointResidualX(p: Point, mx: real, my: real, b: real)
    ensures var r := Residual(p, my - Product(b, mx), b);
      Product(r, p.x) == Product(p.x - mx, p.y - my) - Product(b, Square(p.x - mx)) + Product(mx, r)
  {
    var dx, dy := p.x - mx, p.y - my;
    var r := Residual(p, my - Product(b, mx), b);
    ProductSubtracts(b, p.x, mx);
    assert r == dy - Product(b, dx);
    ProductAdds(r, dx, mx);
    assert dx + mx == p.x;
    ProductSubtracts(dx, dy, Product(b, dx));
    ProductAssociates(b, dx, dx);
    ProductAdds(dx, r, 0.0);
    ProductAdds(mx, r, 0.0);
  }

  /** Residuals weighted by x, in terms of the deviations from the centre. */
  lemma {:induction false} ResidualXSums(ps: seq<Point>, mx: real, my: real, b: real)
    ensures var a := my - Product(b, mx);
      SumResidualX(ps, a, b) == SumXY(ps, mx, my) - Product(b, SumXX(ps, mx)) + Product(mx, SumResidual(ps, a, b))
  {
    if ps == [] {
      ProductZero(b);
      ProductZero(mx);
    } else {
      var init, p, a := ps[..|ps| - 1], ps[|ps| - 1], my - Product(b, mx);
      ResidualXSums(init, mx, my, b);
      PointResidualX(p, mx, my, b);
      ProductAdds(b, SumXX(init, mx), Square(p.x - mx));
      ProductAdds(mx, SumResidual(init, a, b), Residual(p, a, b));
    }
  }

  lemma {:induction false} NoSpread(ps: seq<Point>, mx: real, my: real)
    ensures SumXX(ps, mx) >= 0.0
    ensures SumXX(ps, mx) == 0.0 ==> SumXY(ps, mx, my) == 0.0
  {
    if ps != [] {
      var init, p := ps[..|ps| - 1], ps[|ps| - 1];
      NoSpread(init, mx, my);
      SquareNonnegative(p.x - mx);
      ProductZero(p.y - my);
    }
  }

  /** Whenever slope times x-variance is the covariance, the line through the centre is balanced. */
  lemma SlopeBalances(ps: seq<Point>, b: real)
    requires ps != []
    requires Product(b, SumXX(ps, MeanX(ps))) == SumXY(ps, MeanX(ps), MeanY(ps))
    ensures Balanced(ps, Through(ps, b), b)
  {
    ThroughTheCentre(ps, b);
    ResidualXSums(ps, MeanX(ps), MeanY(ps), b);
    ProductZero(MeanX(ps));
  }

  lemma OnePointHasNoSpread(ps: seq<Point>)
    requires |ps| == 1
    ensures SumXX(ps, MeanX(ps)) == 0.0
  {
    assert SumX(ps[..0]) == 0.0 && SumXX(ps[..0], MeanX(ps)) == 0.0;
    assert MeanX(ps) == ps[0].x;
  }

  /** The slope: covariance over x-variance, flat when x does not vary. */
  function SlopeOf(ps: seq<Point>): real
    requires ps != []
  {
    var xx := SumXX(ps, MeanX(ps));
    if xx == 0.0 then 0.0 else SumXY(ps, MeanX(ps), MeanY(ps)) / xx
  }

  lemma FittedLine(ps: seq<Point>)
    requires ps != []
    ensures Regress(ps).slope == SlopeOf(ps)
    ensures Regress(ps).intercept == Through(ps, SlopeOf(ps))
  {
    if |ps| == 1 {
      OnePointHasNoSpread(ps);
    }
    ProductZero(MeanX(ps));
  }

  /** In every branch the fitted line satisfies the normal equations. */
  lemma FitIsBalanced(ps: seq<Point>)
    ensures Balanced(ps, Regress(ps).intercept, Regress(ps).slope)
  {
    if ps != [] {
      var xx := SumXX(ps, MeanX(ps));
      FittedLine(ps);
      NoSpread(ps, MeanX(ps), MeanY(ps));
      if xx == 0.0 {
        ProductZero(xx);
      } else {
        Quotient(SumXY(ps, MeanX(ps), MeanY(ps)), xx);
      }
      SlopeBalances(ps, SlopeOf(ps));
    }
  }

  /** Least squares: on every list of points, in every branch, no line loses less than the fitted one. */
  lemma FitIsLeastSquares(ps: seq<Point>, a: real, b: real)
    ensures Loss(ps, Regress(ps).intercept, Regress(ps).slope) <= Loss(ps, a, b)
  {
    FitIsBalanced(ps);
    BalancedIsLeast(ps, Regress(ps).intercept, Regress(ps).slope, a, b);
  }

  // ---- the coefficient of determination ----

  function SumDeviation(ps: seq<Point>, mx: real): real {
    if ps == [] then 0.0 else SumDeviation(ps[..|ps| - 1], mx) + (ps[|ps| - 1].x - mx)
  }

  lemma {:induction false} DeviationsCancel(ps: seq<Point>, mx: real)
    ensures SumDeviation(ps, mx) == SumX(ps) - |ps| as real * mx
  {
    if ps != [] {
      DeviationsCancel(ps[..|ps| - 1], mx);
      assert |ps| as real * mx == (|ps| - 1) as real * mx + mx;
    }
  }

  lemma PointSpread(p: Point, mx: real, da: real, db: real)
    ensures var e := da + Product(db, mx);
      Square(da + Product(db, p.x)) ==
      Square(e) + 2.0 * Product(Product(e, db), p.x - mx) + Product(Square(db), Square(p.x - mx))
  {
    var e, dx := da + Product(db, mx), p.x - mx;
    ProductSubtracts(db, p.x, mx);
    assert da + Product(db, p.x) == e + Product(db, dx);
    SquareOfSum(e, Product(db, dx));
    assert e * (db * dx) == (e * db) * dx;
    assert (db * dx) * (db * dx) == (db * db) * (dx * dx);
  }

  /** The spread of a line about a centre: its height there, its cross term, and its slope's share. */
  lemma {:induction false} SpreadAbout(ps: seq<Point>, mx: real, da: real, db: real)
    ensures var e := da + Product(db, mx);
      Spread(ps, da, db) ==
      Product(|ps| as real, Square(e)) + 2.0 * Product(Product(e, db), SumDeviation(ps, mx))
      + Product(Square(db), SumXX(ps, mx))
  {
    var e := da + Product(db, mx);
    if ps == [] {
      ProductZero(Square(e));
      ProductZero(Product(e, db));
      ProductZero(Square(db));
    } else {
      var init, p := ps[..|ps| - 1], ps[|ps| - 1];
      SpreadAbout(init, mx, da, db);
      PointSpread(p, mx, da, db);
      ProductAdds(Square(e), |init| as real, 1.0);
      assert Product(1.0, Square(e)) == Square(e);
      ProductAdds(Product(e, db), SumDeviation(init, mx), p.x - mx);
      ProductAdds(Square(db), SumXX(init, mx), Square(p.x - mx));
    }
  }

  /** About the mean the cross term vanishes. */
  lemma SpreadAboutMean(ps: seq<Point>, da: real, db: real)
    requires ps != []
    ensures Spread(ps, da, db) ==
            Product(|ps| as real, Square(da + Product(db, MeanX(ps)))) + Product(Square(db), SumXX(ps, MeanX(ps)))
  {
    SpreadAbout(ps, MeanX(ps), da, db);
    DeviationsCancel(ps, MeanX(ps));
    Quotient(SumX(ps), |ps| as real);
    ProductZero(Product(da + Product(db, MeanX(ps)), db));
  }

  lemma {:induction false} LossNonnegative(ps: seq<Point>, a: real, b: real)
    ensures Loss(ps, a, b) >= 0.0
  {
    if ps != [] {
      LossNonnegative(ps[..|ps| - 1], a, b);
      SquareNonnegative(Residual(ps[|ps| - 1], a, b));
    }
  }

  lemma {:induction false} FlatLoss(ps: seq<Point>, my: real)
    ensures Loss(ps, my, 0.0) == SumYY(ps, my)
  {
    if ps != [] {
      FlatLoss(ps[..|ps| - 1], my);
      ProductZero(ps[|ps| - 1].x);
    }
  }

  /** The variance of y splits into what the fitted line explains and what it leaves. */
  lemma VarianceSplits(ps: seq<Point>)
    requires ps != []
    ensures SumYY(ps, MeanY(ps)) ==
            Loss(ps, Regress(ps).intercept, Regress(ps).slope)
            + Product(Square(SlopeOf(ps)), SumXX(ps, MeanX(ps)))
  {
    var a, b := Regress(ps).intercept, Regress(ps).slope;
    FittedLine(ps);
    FitIsBalanced(ps);
    BalancedIsLeast(ps, a, b, MeanY(ps), 0.0);
    FlatLoss(ps, MeanY(ps));
    SpreadAboutMean(ps, a - MeanY(ps), b);
    ProductZero(|ps| as real);
    assert Square(0.0) == 0.0;
  }

  lemma QuotientBounds(loss: real, total: real)
    requires 0.0 <= loss <= total && total > 0.0
    ensures 0.0 <= 1.0 - loss / total <= 1.0
    ensures Clamp01(1.0 - loss / total) == 1.0 - loss / total
  {
    var q := loss / total;
    assert q * total == loss;
    assert q < 0.0 ==> q * total < 0.0;
    assert q > 1.0 ==> q * total > total;
  }

  /** Over reals r² needs no clamping: 1 - ssRes / ssYY already lies between 0 and 1. */
  lemma ClampChangesNothing(ps: seq<Point>)
    requires |ps| > 1 && SumXX(ps, MeanX(ps)) != 0.0 && SumYY(ps, MeanY(ps)) > 0.0
    ensures Regress(ps).r2 == 1.0 - Loss(ps, Regress(ps).intercept, Regress(ps).slope) / SumYY(ps, MeanY(ps))
    ensures 0.0 <= Regress(ps).r2 <= 1.0
  {
    LossNonnegative(ps, Regress(ps).intercept, Regress(ps).slope);
    FitIsLeastSquares(ps, MeanY(ps), 0.0);
    FlatLoss(ps, MeanY(ps));
    QuotientBounds(Loss(ps, Regress(ps).intercept, Regress(ps).slope), SumYY(ps, MeanY(ps)));
  }

  lemma ShareOfVariance(loss: real, total: real, slope: real, xx: real, xy: real)
    requires total > 0.0 && Product(slope, xx) == xy
    requires total == loss + Product(Square(slope), xx)
    ensures Product(1.0 - loss / total, Product(xx, total)) == Square(xy)
  {
    var q := loss / total;
    assert q * total == loss;
    assert (1.0 - q) * total == slope * slope * xx;
    assert (1.0 - q) * (xx * total) == xx * ((1.0 - q) * total);
    assert xx * (slope * slope * xx) == (slope * xx) * (slope * xx);
  }

  /** r² is the squared correlation: r² · ssXX · ssYY = ssXY². */
  lemma R2IsSquaredCorrelation(ps: seq<Point>)
    requires |ps| > 1 && SumXX(ps, MeanX(ps)) != 0.0 && SumYY(ps, MeanY(ps)) > 0.0
    ensures Product(Regress(ps).r2, Product(SumXX(ps, MeanX(ps)), SumYY(ps, MeanY(ps))))
            == Square(SumXY(ps, MeanX(ps), MeanY(ps)))
  {
    ClampChangesNothing(ps);
    VarianceSplits(ps);
    FittedLine(ps);
    Quotient(SumXY(ps, MeanX(ps), MeanY(ps)), SumXX(ps, MeanX(ps)));
    ShareOfVariance(
      Loss(ps, Regress(ps).intercept, Regress(ps).slope), SumYY(ps, MeanY(ps)),
      SlopeOf(ps), SumXX(ps, MeanX(ps)), SumXY(ps, MeanX(ps), MeanY(ps)));
  }

  // ---- uniqueness ----

  /** With any x-variance the fitted line is the only one of least loss. */
  lemma OnlyFitIsLeast(ps: seq<Point>, a: real, b: real)
    requires ps != [] && SumXX(ps, MeanX(ps)) != 0.0
    requires Loss(ps, a, b) == Loss(ps, Regress(ps).intercept, Regress(ps).slope)
    ensures a == Regress(ps).intercept && b == Regress(ps).slope
  {
    var da, db := Regress(ps).intercept - a, Regress(ps).slope - b;
    var xx, e := SumXX(ps, MeanX(ps)), da + Product(db, MeanX(ps));
    FitIsBalanced(ps);
    BalancedIsLeast(ps, Regress(ps).intercept, Regress(ps).slope, a, b);
    SpreadAboutMean(ps, da, db);
    NoSpread(ps, MeanX(ps), MeanY(ps));
    SquareNonnegative(db);
    SquareNonnegative(e);
    if Square(db) > 0.0 {
      PositiveProduct(Square(db), xx);
      NonnegativeProduct(|ps| as real, Square(e));
      assert false;
    }
    ProductZero(xx);
    if Square(e) > 0.0 {
      PositiveProduct(|ps| as real, Square(e));
      assert false;
    }
    ProductZero(MeanX(ps));
  }

  lemma NonnegativeProduct(x: real, y: real)
    requires x >= 0.0 && y >= 0.0
    ensures Product(x, y) >= 0.0
  {
  }

  /** Without x-variance every line through the centre loses as little: the flat one is a choice. */
  lemma AnySlopeWithoutSpread(ps: seq<Point>, b: real)
    requires ps != [] && SumXX(ps, MeanX(ps)) == 0.0
    ensures Loss(ps, Through(ps, b), b) == Loss(ps, Regress(ps).intercept, Regress(ps).slope)
  {
    NoSpread(ps, MeanX(ps), MeanY(ps));
    ProductZero(b);
    SlopeBalances(ps, b);
    BalancedIsLeast(ps, Through(ps, b), b, Regress(ps).intercept, Regress(ps).slope);
    FitIsLeastSquares(ps, Through(ps, b), b);
  }

  // ---- series that do not vary ----

  ghost predicate SameX(ps: seq<Point>) {
    forall i, j :: 0 <= i < |ps| && 0 <= j < |ps| ==> ps[i].x == ps[j].x
  }

  ghost predicate SameY(ps: seq<Point>) {
    forall i, j :: 0 <= i < |ps| && 0 <= j < |ps| ==> ps[i].y == ps[j].y
  }

  lemma {:induction false} NoDeviation(ps: seq<Point>, mx: real, my: real)
    ensures SumXX(ps, mx) == 0.0 <==> forall i :: 0 <= i < |ps| ==> ps[i].x == mx
    ensures SumYY(ps, my) == 0.0 <==> forall i :: 0 <= i < |ps| ==> ps[i].y == my
    ensures SumXX(ps, mx) >= 0.0 && SumYY(ps, my) >= 0.0
  {
    if ps != [] {
      var init, p := ps[..|ps| - 1], ps[|ps| - 1];
      NoDeviation(init, mx, my);
      SquareNonnegative(p.x - mx);
      SquareNonnegative(p.y - my);
      assert forall i :: 0 <= i < |init| ==> ps[i] == init[i];
    }
  }

  lemma {:induction false} SumOfEqual(ps: seq<Point>, x: real, y: real)
    ensures (forall i :: 0 <= i < |ps| ==> ps[i].x == x) ==> SumX(ps) == Product(|ps| as real, x)
    ensures (forall i :: 0 <= i < |ps| ==> ps[i].y == y) ==> SumY(ps) == Product(|ps| as real, y)
  {
    if ps != [] {
      SumOfEqual(ps[..|ps| - 1], x, y);
      ProductAdds(x, (|ps| - 1) as real, 1.0);
      ProductAdds(y, (|ps| - 1) as real, 1.0);
    }
  }

  lemma MeanOfEqual(n: real, x: real, sum: real)
    requires n > 0.0 && sum == Product(n, x)
    ensures sum / n == x
  {
    var mean := sum / n;
    assert mean * n == sum;
    assert (mean - x) * n == 0.0;
  }

  /** The variances are nothing exactly when all the values are the same, and then the mean is that value. */
  lemma VarianceIffVaries(ps: seq<Point>)
    requires ps != []
    ensures SumXX(ps, MeanX(ps)) == 0.0 <==> SameX(ps)
    ensures SumYY(ps, MeanY(ps)) == 0.0 <==> SameY(ps)
    ensures SumYY(ps, MeanY(ps)) >= 0.0
    ensures SameY(ps) ==> MeanY(ps) == ps[0].y
  {
    NoDeviation(ps, MeanX(ps), MeanY(ps));
    SumOfEqual(ps, ps[0].x, ps[0].y);
    if SameX(ps) {
      MeanOfEqual(|ps| as real, ps[0].x, SumX(ps));
    }
    if SameY(ps) {
      MeanOfEqual(|ps| as real, ps[0].y, SumY(ps));
    }
  }

  /**
   * Without points all is zero. When x does not vary, as for one point, the line is flat at
   * the mean and explains nothing; when x varies and y does not, it is flat at the common
   * value and explains everything.
   */
  lemma FlatFits(ps: seq<Point>)
    ensures ps == [] ==> Regress(ps) == Fit(0.0, 0.0, 0.0)
    ensures ps != [] && SameX(ps) ==> Regress(ps) == Fit(0.0, MeanY(ps), 0.0)
    ensures ps != [] && !SameX(ps) && SameY(ps) ==> Regress(ps) == Fit(0.0, ps[0].y, 1.0)
  {
    if ps != [] {
      VarianceIffVaries(ps);
      if |ps| > 1 && SameY(ps) {
        FlatCovariance(ps, MeanX(ps), MeanY(ps));
        ProductZero(MeanX(ps));
      }
    }
  }

  lemma {:induction false} FlatCovariance(ps: seq<Point>, mx: real, my: real)
    requires forall i :: 0 <= i < |ps| ==> ps[i].y == my
    ensures SumXY(ps, mx, my) == 0.0
  {
    if ps != [] {
      FlatCovariance(ps[..|ps| - 1], mx, my);
      ProductZero(ps[|ps| - 1].x - mx);
    }
  }

  // ---- moving the origin ----

  /** The points with x counted from `t`. */
  function Shift(ps: seq<Point>, t: real): seq<Point> {
    if ps == [] then []
    else Shift(ps[..|ps| - 1], t) + [Point(ps[|ps| - 1].x - t, ps[|ps| - 1].y)]
  }

  lemma {:induction false} ShiftSums(ps: seq<Point>, t: real, mx: real, my: real)
    ensures |Shift(ps, t)| == |ps|
    ensures SumX(Shift(ps, t)) == SumX(ps) - Product(|ps| as real, t)
    ensures SumY(Shift(ps, t)) == SumY(ps)
    ensures SumXX(Shift(ps, t), mx - t) == SumXX(ps, mx)
    ensures SumXY(Shift(ps, t), mx - t, my) == SumXY(ps, mx, my)
    ensures SumYY(Shift(ps, t), my) == SumYY(ps, my)
  {
    if ps == [] {
      ProductZero(t);
    } else {
      ShiftSums(ps[..|ps| - 1], t, mx, my);
      ShiftInit(ps, t);
      ProductAdds(t, (|ps| - 1) as real, 1.0);
      assert Product(1.0, t) == t;
      assert (ps[|ps| - 1].x - t) - (mx - t) == ps[|ps| - 1].x - mx;
    }
  }

  lemma ShiftInit(ps: seq<Point>, t: real)
    requires ps != []
    ensures Shift(ps, t) != []
    ensures Shift(ps, t)[..|Shift(ps, t)| - 1] == Shift(ps[..|ps| - 1], t)
    ensures Shift(ps, t)[|Shift(ps, t)| - 1] == Point(ps[|ps| - 1].x - t, ps[|ps| - 1].y)
  {
  }

  lemma {:induction false} ShiftLoss(ps: seq<Point>, t: real, a: real, b: real)
    ensures Loss(Shift(ps, t), a + Product(b, t), b) == Loss(ps, a, b)
  {
    if ps != [] {
      ShiftLoss(ps[..|ps| - 1], t, a, b);
      ShiftInit(ps, t);
      ProductSubtracts(b, ps[|ps| - 1].x, t);
    }
  }

  lemma ShiftMeans(ps: seq<Point>, t: real)
    requires ps != []
    ensures Shift(ps, t) != []
    ensures MeanX(Shift(ps, t)) == MeanX(ps) - t && MeanY(Shift(ps, t)) == MeanY(ps)
  {
    ShiftSums(ps, t, 0.0, 0.0);
    ShiftedMean(SumX(ps), |ps| as real, t);
  }

  lemma ShiftedMean(sum: real, n: real, t: real)
    requires n > 0.0
    ensures (sum - Product(n, t)) / n == sum / n - t
  {
    var q := sum / n;
    assert sum == n * q;
    assert sum - n * t == n * (q - t);
  }

  function Predict(fit: Fit, x: real): real {
    fit.intercept + Product(fit.slope, x)
  }

  /** Counting x from another origin leaves slope, r² and every prediction unchanged. */
  lemma OriginDoesNotMatter(ps: seq<Point>, t: real, x: real)
    ensures Regress(Shift(ps, t)).slope == Regress(ps).slope
    ensures Regress(Shift(ps, t)).r2 == Regress(ps).r2
    ensures Predict(Regress(Shift(ps, t)), x - t) == Predict(Regress(ps), x)
  {
    if ps == [] {
      ProductZero(x);
      ProductZero(x - t);
    } else {
      ShiftMeans(ps, t);
      ShiftSums(ps, t, MeanX(ps), MeanY(ps));
      FittedLine(ps);
      FittedLine(Shift(ps, t));
      var b := SlopeOf(ps);
      ProductSubtracts(b, MeanX(ps), t);
      ProductSubtracts(b, x, t);
      ShiftLoss(ps, t, Through(ps, b), b);
    }
  }
}
