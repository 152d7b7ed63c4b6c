/** The grid of galaxies (app/models/galaxy.rb): numbering of cells, and distances on a world that wraps around. */
module Galaxy {

  // ---- Numbering ----

  function Triangle(j: nat): (t: nat)
    ensures 2 * t == j * (j + 1)
  {
    if j == 0 then 0 else Triangle(j - 1) + j
  }

  /** calcX for integers, on a world of w by w cells. */
  function CalcX(x: int, y: int, w: int): int
    requires w > 0
  {
    var a, b := x % w, y % w;
    (a + b) * (a + b + 1) / 2 + b + 1
  }

  /** The number j with j * (j + 1) / 2 <= i < (j + 1) * (j + 2) / 2. */
  function Diagonal(i: nat): (j: nat)
    ensures Triangle(j) <= i < Triangle(j + 1)
  {
    if i == 0 then 0
    else
      var j := Diagonal(i - 1);
      if i < Triangle(j + 1) then j else j + 1
  }

  /** getCoords. */
  function Coords(x: int): (int, int) {
    if x > 0 then
      var i := x - 1;
      var j := Diagonal(i);
      (j - (i - j * (j + 1) / 2), i - j * (j + 1) / 2)
    else (-1, -1)
  }

  lemma Product(a: real, b: real, c: real)
    requires 0.0 <= a <= b && 0.0 <= c
    ensures a * c <= b * c
  {
  }

  lemma Square(x: real, y: real)
    requires 0.0 <= x && 0.0 <= y
    ensures x <= y ==> x * x <= y * y
    ensures y < x ==> y * y < x * x
  {
    if x <= y {
      Product(x, y, x);
      Product(x, y, y);
    } else {
      var d := x - y;
      assert x * x - y * y == d * (x + y);
      assert d * (x + y) > 0.0;
    }
  }

  lemma HalfSquare(j: nat)
    ensures (j as real + 0.5) * (j as real + 0.5) == 0.25 + (2 * Triangle(j)) as real
  {
    var r := j as real;
    assert (r + 0.5) * (r + 0.5) == r * r + r + 0.25;
    assert (2 * Triangle(j)) as real == (j * (j + 1)) as real;
    RealProduct(j, j + 1);
    assert r * (r + 1.0) == r * r + r;
  }

  lemma {:induction false} RealProduct(a: nat, b: nat)
    ensures (a * b) as real == (a as real) * (b as real)
    decreases a
  {
    if a == 0 {
      assert 0 * b == 0;
    } else {
      RealProduct(a - 1, b);
      assert a * b == (a - 1) * b + b;
      assert (a as real) * (b as real) == ((a - 1) as real) * (b as real) + b as real;
    }
  }

  lemma FloorIs(r: real, j: int)
    requires j as real <= r < (j + 1) as real
    ensures r.Floor == j
  {
  }

  lemma RootBetween(s: real, a: real, b: real)
    requires 0.0 <= s && 0.0 <= a && 0.0 <= b && a * a <= s * s < b * b
    ensures a <= s < b
  {
    Square(a, s);
    Square(b, s);
  }

  lemma DiagonalBounds(i: nat)
    ensures var j := Diagonal(i);
            0.25 + (2 * Triangle(j)) as real <= 0.25 + 2.0 * (i as real) < 0.25 + (2 * Triangle(j + 1)) as real
  {
    hide Diagonal, Triangle;
    assert 2.0 * (i as real) == (2 * i) as real;
  }

  /** With a real square root, the formula of getCoords gives just that number. */
  lemma DiagonalIsFloor(i: nat, s: real)
    requires s >= 0.0 && s * s == 0.25 + 2.0 * (i as real)
    ensures (s - 0.5).Floor == Diagonal(i)
  {
    hide *;
    var j := Diagonal(i);
    HalfSquare(j);
    HalfSquare(j + 1);
    DiagonalBounds(i);
    RootBetween(s, j as real + 0.5, (j + 1) as real + 0.5);
    FloorIs(s - 0.5, j);
  }

  lemma {:induction false} TriangleGrows(a: nat, b: nat)
    requires a < b
    ensures Triangle(a + 1) <= Triangle(b)
    decreases b - a
  {
    if a + 1 < b {
      TriangleGrows(a + 1, b);
    }
  }

  lemma DiagonalUnique(i: nat, j: nat)
    requires Triangle(j) <= i < Triangle(j + 1)
    ensures Diagonal(i) == j
  {
    var k := Diagonal(i);
    hide Diagonal, Triangle;
    if k < j { TriangleGrows(k, j); }
    if j < k { TriangleGrows(j, k); }
  }

  lemma TriangleIs(j: nat)
    ensures j * (j + 1) / 2 == Triangle(j) && Triangle(j + 1) == Triangle(j) + j + 1
  {
  }

  /** getCoords undoes calcX, up to reduction modulo the length of the world. */
  lemma CoordsInvertsCalcX(x: int, y: int, w: int)
    requires w > 0
    ensures CalcX(x, y, w) > 0 && Coords(CalcX(x, y, w)) == (x % w, y % w)
  {
    var a, b := x % w, y % w;
    var n := a + b;
    TriangleIs(n);
    hide Diagonal, Triangle;
    DiagonalUnique(Triangle(n) + b, n);
  }

  /** Every positive number is that of the cell it stands for, if the world is large enough for the cell. */
  lemma CalcXInvertsCoords(n: int, w: int)
    requires n > 0 && Coords(n).0 < w && Coords(n).1 < w
    ensures 0 <= Coords(n).0 && 0 <= Coords(n).1 && CalcX(Coords(n).0, Coords(n).1, w) == n
  {
    var i := n - 1;
    var j := Diagonal(i);
    TriangleIs(j);
    hide Diagonal, Triangle;
    var x, y := Coords(n).0, Coords(n).1;
    assert 0 <= x < w && 0 <= y < w && x + y == j;
    SmallRemainder(x, w);
    SmallRemainder(y, w);
  }

  lemma SmallRemainder(x: int, w: int)
    requires 0 <= x < w
    ensures x % w == x
  {
  }

  // ---- Distances ----

  function Abs(x: int): int { if x < 0 then -x else x }

  function Min(x: int, y: int): int { if x < y then x else y }

  function Squares(x: int, y: int): int { x * x + y * y }

  /** The square of the distance of two cells: the shorter way on each axis. */
  function Distance2(x1: int, y1: int, x2: int, y2: int, w: int): int {
    var x, y := Abs(x1 - x2), Abs(y1 - y2);
    Squares(Min(x, Abs(w - x)), Min(y, Abs(w - y)))
  }

  lemma SquareGrows(a: int, b: int)
    requires 0 <= a <= b
    ensures a * a <= b * b
  {
    assert a * a <= a * b && a * b <= b * b;
  }

  /** The list of getDistance, in the order in which it is filled, holds the four ways around. */
  lemma ShortestOfFour(x: int, y: int, w: int)
    requires 0 <= x && 0 <= y
    ensures var m := Squares(Min(x, Abs(w - x)), Min(y, Abs(w - y)));
            && m <= Squares(x, y) && m <= Squares(x, w - y) && m <= Squares(w - x, w - y) && m <= Squares(w - x, y)
            && (m == Squares(x, y) || m == Squares(x, w - y) || m == Squares(w - x, w - y) || m == Squares(w - x, y))
  {
    AbsSquare(w - x);
    AbsSquare(w - y);
    SquareGrows(Min(x, Abs(w - x)), x);
    SquareGrows(Min(x, Abs(w - x)), Abs(w - x));
    SquareGrows(Min(y, Abs(w - y)), y);
    SquareGrows(Min(y, Abs(w - y)), Abs(w - y));
    hide Abs;
  }

  /** Comparing square roots is comparing what they are the roots of. */
  method Smallest(dist: seq<int>) returns (m: int)
    requires dist != []
    ensures m in dist && forall i :: 0 <= i < |dist| ==> m <= dist[i]
  {
    m := dist[0];
    var k := 1;
    while k < |dist|
      invariant 1 <= k <= |dist| && m in dist && forall i :: 0 <= i < k ==> m <= dist[i]
    {
      if dist[k] < m { m := dist[k]; }
      k := k + 1;
    }
  }

  /** The coordinates of a galaxy are those of a cell exactly if its number is positive. */
  lemma CoordsSign(x: int)
    ensures x <= 0 ==> Coords(x) == (-1, -1)
    ensures x > 0 ==> Coords(x).0 >= 0 && Coords(x).1 >= 0
  {
    if x > 0 {
      TriangleIs(Diagonal(x - 1));
      hide Diagonal, Triangle;
    }
  }

  /** getDistance of two galaxies by their numbers, squared and without the scale; -1 for a number of no cell. */
  method GetDistance(self: int, other: int, w: int) returns (d: int)
    ensures self <= 0 || other <= 0 ==> d == -1
    ensures self > 0 && other > 0 ==>
              d == Distance2(Coords(self).0, Coords(self).1, Coords(other).0, Coords(other).1, w)
  {
    var pos1, pos2 := Coords(self), Coords(other);
    hide Coords, Squares;
    CoordsSign(self);
    CoordsSign(other);
    if pos1.0 < 0 || pos1.1 < 0 || pos2.0 < 0 || pos2.1 < 0 { return -1; }
    var x := if pos1.0 < pos2.0 then pos2.0 - pos1.0 else pos1.0 - pos2.0;
    var y := if pos1.1 < pos2.1 then pos2.1 - pos1.1 else pos1.1 - pos2.1;
    d := ShortestWay(x, y, w);
  }

  /** Lines 52-65: the four ways around, and the shortest of them. */
  method ShortestWay(x0: int, y: int, w: int) returns (d: int)
    requires 0 <= x0 && 0 <= y
    ensures d == Squares(Min(x0, Abs(w - x0)), Min(y, Abs(w - y)))
  {
    ShortestOfFour(x0, y, w);
    hide Squares, Min, Abs;
    var x := x0;
    var dist := [Squares(x, y)];
    var y2 := w - y;
    dist := dist + [Squares(x, y2)];
    x := w - x;
    dist := dist + [Squares(x, y2)];
    dist := dist + [Squares(x, y)];
    assert dist == [Squares(x0, y), Squares(x0, w - y), Squares(w - x0, w - y), Squares(w - x0, y)];
    d := Smallest(dist);
    assert d <= dist[0] && d <= dist[1] && d <= dist[2] && d <= dist[3];
  }

  /** A cell of the world. */
  predicate Cell(x: int, y: int, w: int) { 0 <= x < w && 0 <= y < w }

  /** Going around the world k times cannot be shorter than the shorter way. */
  lemma AxisShortest(d: int, w: int, k: int)
    requires -w < d < w
    ensures Min(Abs(d), w - Abs(d)) <= Abs(d + k * w)
  {
    if k > 0 {
      assert k * w >= w;
    } else if k < 0 {
      assert k * w <= -w;
    }
  }

  /** Some way around has just that length. */
  lemma AxisAttained(d: int, w: int) returns (k: int)
    requires -w < d < w
    ensures Abs(d + k * w) == Min(Abs(d), w - Abs(d))
  {
    k := if Abs(d) <= w - Abs(d) then 0 else if d > 0 then -1 else 1;
    assert k * w == if k == 0 then 0 else if k == 1 then w else -w;
  }

  lemma AbsSquare(x: int)
    ensures Abs(x) * Abs(x) == x * x
  {
  }

  /** The distance is the least over all ways to wrap around, in both directions and any number of times. */
  lemma ShortestOverWraps(x1: int, y1: int, x2: int, y2: int, w: int, k: int, l: int)
    requires Cell(x1, y1, w) && Cell(x2, y2, w)
    ensures Distance2(x1, y1, x2, y2, w) <= Squares(x1 - x2 + k * w, y1 - y2 + l * w)
  {
    AxisShortest(x1 - x2, w, k);
    AxisShortest(y1 - y2, w, l);
    var u, v := x1 - x2 + k * w, y1 - y2 + l * w;
    AbsSquare(u);
    AbsSquare(v);
    var mx, my := Min(Abs(x1 - x2), w - Abs(x1 - x2)), Min(Abs(y1 - y2), w - Abs(y1 - y2));
    SquareGrows(mx, Abs(u));
    SquareGrows(my, Abs(v));
    hide Abs, Min;
  }

  lemma AttainedByWrap(x1: int, y1: int, x2: int, y2: int, w: int) returns (k: int, l: int)
    requires Cell(x1, y1, w) && Cell(x2, y2, w)
    ensures Distance2(x1, y1, x2, y2, w) == Squares(x1 - x2 + k * w, y1 - y2 + l * w)
  {
    k := AxisAttained(x1 - x2, w);
    l := AxisAttained(y1 - y2, w);
    AbsSquare(x1 - x2 + k * w);
    AbsSquare(y1 - y2 + l * w);
    hide Abs, Min;
  }

  lemma DistanceSymmetric(x1: int, y1: int, x2: int, y2: int, w: int)
    requires Cell(x1, y1, w) && Cell(x2, y2, w)
    ensures Distance2(x1, y1, x2, y2, w) == Distance2(x2, y2, x1, y1, w)
  {
    assert Abs(x1 - x2) == Abs(x2 - x1) && Abs(y1 - y2) == Abs(y2 - y1);
    hide Abs, Min, Squares;
  }

  lemma SumOfSquares(a: int, b: int)
    ensures Squares(a, b) >= 0 && (Squares(a, b) == 0 <==> a == 0 && b == 0)
  {
    SquarePositive(a);
    SquarePositive(b);
  }

  lemma SquarePositive(a: int)
    ensures a * a >= 0 && (a * a == 0 <==> a == 0)
  {
  }

  lemma ZeroOnlyForSame(x1: int, y1: int, x2: int, y2: int, w: int)
    requires Cell(x1, y1, w) && Cell(x2, y2, w)
    ensures Distance2(x1, y1, x2, y2, w) >= 0
    ensures Distance2(x1, y1, x2, y2, w) == 0 <==> x1 == x2 && y1 == y2
  {
    SumOfSquares(Min(Abs(x1 - x2), w - Abs(x1 - x2)), Min(Abs(y1 - y2), w - Abs(y1 - y2)));
    hide Squares;
  }

  // ---- The triangle inequality ----

  /** (p1 q1 + p2 q2)^2 <= (p1^2 + p2^2) (q1^2 + q2^2) */
  lemma Cauchy(p1: int, p2: int, q1: int, q2: int)
    ensures (p1 * q1 + p2 * q2) * (p1 * q1 + p2 * q2) <= Squares(p1, p2) * Squares(q1, q2)
  {
    var d := p1 * q2 - p2 * q1;
    SquarePositive(d);
    Lagrange(p1, p2, q1, q2);
  }

  lemma Lagrange(p1: int, p2: int, q1: int, q2: int)
    ensures Squares(p1, p2) * Squares(q1, q2)
         == (p1 * q1 + p2 * q2) * (p1 * q1 + p2 * q2) + (p1 * q2 - p2 * q1) * (p1 * q2 - p2 * q1)
  {
  }

  lemma SquareAsReal(n: int)
    ensures (n * n) as real == (n as real) * (n as real)
  {
    var m := Abs(n);
    AbsSquare(n);
    RealProduct(m, m);
    assert (m as real) * (m as real) == (n as real) * (n as real) by {
      assert m as real == n as real || m as real == -(n as real);
    }
  }

  lemma SquareOfProduct(b: real, c: real)
    ensures (b * c) * (b * c) == (b * b) * (c * c)
  {
    assert (b * c) * (b * c) == b * (c * (b * c));
    assert c * (b * c) == b * (c * c);
  }

  lemma ProductPositive(b: real, c: real)
    requires 0.0 <= b && 0.0 <= c
    ensures 0.0 <= b * c
  {
  }

  /** A scalar product is at most the product of the lengths. */
  lemma DotBound(dot: int, m: nat, n: nat, b: real, c: real)
    requires dot * dot <= m * n && 0.0 <= b && 0.0 <= c && b * b == m as real && c * c == n as real
    ensures dot as real <= b * c
  {
    ProductPositive(b, c);
    if dot > 0 {
      SquareAsReal(dot);
      RealProduct(m, n);
      SquareOfProduct(b, c);
      assert (dot * dot) as real <= (m * n) as real;
      hide *;
      Square(dot as real, b * c);
    }
  }

  lemma SquaresOfSum(u1: int, u2: int, v1: int, v2: int)
    ensures Squares(u1 + v1, u2 + v2) == Squares(u1, u2) + Squares(v1, v2) + 2 * (u1 * v1 + u2 * v2)
  {
  }

  lemma SumSquared(b: real, c: real)
    ensures (b + c) * (b + c) == b * b + c * c + 2.0 * (b * c)
  {
  }

  /** With a, b and c the lengths of w, u and v, if w is no longer than u + v then a is at most b + c. */
  lemma SidesOfTriangle(d: nat, u1: int, u2: int, v1: int, v2: int, a: real, b: real, c: real)
    requires d <= Squares(u1 + v1, u2 + v2)
    requires 0.0 <= a && 0.0 <= b && 0.0 <= c
    requires a * a == d as real && b * b == Squares(u1, u2) as real && c * c == Squares(v1, v2) as real
    ensures a <= b + c
  {
    hide *;
    var dot := u1 * v1 + u2 * v2;
    SumOfSquares(u1, u2);
    SumOfSquares(v1, v2);
    Cauchy(u1, u2, v1, v2);
    DotBound(dot, Squares(u1, u2), Squares(v1, v2), b, c);
    SquaresOfSum(u1, u2, v1, v2);
    SumSquared(b, c);
    assert a * a <= (b + c) * (b + c);
    Square(a, b + c);
  }

  /** Read with real square roots, distances satisfy the triangle inequality. */
  lemma TriangleInequality(x1: int, y1: int, x2: int, y2: int, x3: int, y3: int, w: int, a: real, b: real, c: real)
    requires Cell(x1, y1, w) && Cell(x2, y2, w) && Cell(x3, y3, w)
    requires 0.0 <= a && 0.0 <= b && 0.0 <= c
    requires a * a == Distance2(x1, y1, x3, y3, w) as real
    requires b * b == Distance2(x1, y1, x2, y2, w) as real
    requires c * c == Distance2(x2, y2, x3, y3, w) as real
    ensures a <= b + c
  {
    hide Distance2, Squares, Abs, Min;
    var k1, l1 := AttainedByWrap(x1, y1, x2, y2, w);
    var k2, l2 := AttainedByWrap(x2, y2, x3, y3, w);
    var u1, u2, v1, v2 := x1 - x2 + k1 * w, y1 - y2 + l1 * w, x2 - x3 + k2 * w, y2 - y3 + l2 * w;
    ShortestOverWraps(x1, y1, x3, y3, w, k1 + k2, l1 + l2);
    assert x1 - x3 + (k1 + k2) * w == u1 + v1 && y1 - y3 + (l1 + l2) * w == u2 + v2;
    ZeroOnlyForSame(x1, y1, x3, y3, w);
    SidesOfTriangle(Distance2(x1, y1, x3, y3, w), u1, u2, v1, v2, a, b, c);
  }
}
