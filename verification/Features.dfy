/** Closest points on triangles (features.py). */
module Features {
  import opened Wrappers

  // The source returns Euclidean distances; the model carries squared distances over exact reals and the closest
  // point itself, so that `math.dist(p, q)` is the square root of `Dist2(p, q)`.

  // ---------------------------------------------------------------- vectors

  datatype Vec = Vec(x: real, y: real, z: real)

  function Sub(p: Vec, q: Vec): Vec { Vec(p.x - q.x, p.y - q.y, p.z - q.z) }

  function Dot(p: Vec, q: Vec): real { p.x * q.x + p.y * q.y + p.z * q.z }

  function Dist2(p: Vec, q: Vec): real { Dot(Sub(p, q), Sub(p, q)) }

  /** `a + s * (b - a) + t * (c - a)`: the point with barycentric weights (1 - s - t, s, t). */
  function Blend(a: Vec, b: Vec, c: Vec, s: real, t: real): Vec {
    Vec(Affine(a.x, b.x, c.x, s, t), Affine(a.y, b.y, c.y, s, t), Affine(a.z, b.z, c.z, s, t))
  }

  function Affine(a: real, b: real, c: real, s: real, t: real): real { a + (b - a) * s + (c - a) * t }

  /** The point at parameter `k` of the edge from `q` to `r`. */
  function Along(q: Vec, r: Vec, k: real): Vec { Vec(Lerp(q.x, r.x, k), Lerp(q.y, r.y, k), Lerp(q.z, r.z, k)) }

  function Lerp(q: real, r: real, k: real): real { q + k * (r - q) }

  predicate Weights(s: real, t: real) { 0.0 <= s && 0.0 <= t && s + t <= 1.0 }

  ghost predicate InTriangle(q: Vec, a: Vec, b: Vec, c: Vec) {
    exists s, t :: Weights(s, t) && q == Blend(a, b, c, s, t)
  }

  /** `q` is a closest point of the triangle: it lies in it and no convex combination is closer. */
  ghost predicate Closest(p: Vec, a: Vec, b: Vec, c: Vec, q: Vec) {
    && InTriangle(q, a, b, c)
    && forall s, t :: Weights(s, t) ==> Dist2(p, q) <= Dist2(p, Blend(a, b, c, s, t))
  }

  // ---------------------------------------------------------------- the source's branches

  datatype Region = VertexA | VertexB | VertexC | EdgeAB | EdgeAC | EdgeBC | Interior

  /** The Voronoi region of the query, by the source's tests in the source's order. */
  function Classify(d1: real, d2: real, d3: real, d4: real, d5: real, d6: real): Region {
    if d1 <= 0.0 && d2 <= 0.0 then VertexA
    else if d3 >= 0.0 && d4 <= d3 then VertexB
    else if d1 * d4 - d3 * d2 <= 0.0 && d1 >= 0.0 && d3 <= 0.0 then EdgeAB
    else if d6 >= 0.0 && d5 <= d6 then VertexC
    else if d5 * d2 - d1 * d6 <= 0.0 && d2 >= 0.0 && d6 <= 0.0 then EdgeAC
    else if d3 * d6 - d5 * d4 <= 0.0 && d4 - d3 >= 0.0 && d5 - d6 >= 0.0 then EdgeBC
    else Interior
  }

  /** The point of a region; None where the source returns infinity. */
  function RegionPoint(r: Region, a: Vec, b: Vec, c: Vec,
                       d1: real, d2: real, d3: real, d4: real, d5: real, d6: real): Option<Vec>
  {
    match r
    case VertexA => Some(a)
    case VertexB => Some(b)
    case VertexC => Some(c)
    case EdgeAB =>
      var denom := d1 - d3;
      if denom == 0.0 then None else Some(Along(a, b, d1 / denom))
    case EdgeAC =>
      var denom := d2 - d6;
      if denom == 0.0 then None else Some(Along(a, c, d2 / denom))
    case EdgeBC =>
      var denom := (d4 - d3) + (d5 - d6);
      if denom == 0.0 then None else Some(Along(b, c, (d4 - d3) / denom))
    case Interior =>
      Barycentric(a, b, c, d3 * d6 - d5 * d4, d5 * d2 - d1 * d6, d1 * d4 - d3 * d2)
  }

  function Barycentric(a: Vec, b: Vec, c: Vec, va: real, vb: real, vc: real): Option<Vec> {
    var denom := va + vb + vc;
    if denom == 0.0 then None else Some(Inside(a, b, c, vb, vc, 1.0 / denom))
  }

  function Inside(a: Vec, b: Vec, c: Vec, vb: real, vc: real, inv: real): Vec {
    Blend(a, b, c, vb * inv, vc * inv)
  }

  /** The point whose distance `_point_tri_dist` returns; None where the source returns infinity. */
  function ClosestPoint(p: Vec, a: Vec, b: Vec, c: Vec): Option<Vec> {
    var ab, ac, ap, bp, cp := Sub(b, a), Sub(c, a), Sub(p, a), Sub(p, b), Sub(p, c);
    var d1, d2, d3, d4, d5, d6 := Dot(ab, ap), Dot(ac, ap), Dot(ab, bp), Dot(ac, bp), Dot(ab, cp), Dot(ac, cp);
    RegionPoint(Classify(d1, d2, d3, d4, d5, d6), a, b, c, d1, d2, d3, d4, d5, d6)
  }

  /** The squared distance `_point_tri_dist` stands for; None is infinity. */
  function PointTriDist2(p: Vec, a: Vec, b: Vec, c: Vec): Option<real> {
    match ClosestPoint(p, a, b, c)
    case None => None
    case Some(q) => Some(Dist2(p, q))
  }

  // ---------------------------------------------------------------- algebra

  /** The six dot products of the source in terms of two of them and the Gram matrix of the edges. */
  lemma GramForm(p: Vec, a: Vec, b: Vec, c: Vec)
    ensures var ab, ac := Sub(b, a), Sub(c, a);
            var A, B, C, d1, d2 := Dot(ab, ab), Dot(ab, ac), Dot(ac, ac), Dot(ab, Sub(p, a)), Dot(ac, Sub(p, a));
            && Dot(ab, Sub(p, b)) == d1 - A && Dot(ac, Sub(p, b)) == d2 - B
            && Dot(ab, Sub(p, c)) == d1 - B && Dot(ac, Sub(p, c)) == d2 - C
  {
  }

  lemma DotSub(u: Vec, v: Vec, w: Vec)
    ensures Dot(u, Sub(v, w)) == Dot(u, v) - Dot(u, w)
  {
  }

  function Comb(u: Vec, s: real, v: Vec, t: real): Vec {
    Vec(s * u.x + t * v.x, s * u.y + t * v.y, s * u.z + t * v.z)
  }

  lemma DotComb(e: Vec, u: Vec, s: real, v: Vec, t: real)
    ensures Dot(e, Comb(u, s, v, t)) == s * Dot(e, u) + t * Dot(e, v)
  {
  }

  lemma DotNonNegative(u: Vec)
    ensures Dot(u, u) >= 0.0
  {
  }

  lemma DotPositive(u: Vec)
    requires u != Vec(0.0, 0.0, 0.0)
    ensures Dot(u, u) > 0.0
  {
    var x, y, z := u.x, u.y, u.z;
    assert u == Vec(x, y, z);
    SumOfSquaresPositive(x, y, z, x * x, y * y, z * z);
  }

  lemma SumOfSquaresPositive(x: real, y: real, z: real, xx: real, yy: real, zz: real)
    requires xx == x * x && yy == y * y && zz == z * z
    requires x != 0.0 || y != 0.0 || z != 0.0
    ensures xx + yy + zz > 0.0
  {
    Square(x, xx);
    Square(y, yy);
    Square(z, zz);
    if x != 0.0 { SquarePositive(x, xx); } else if y != 0.0 { SquarePositive(y, yy); } else { SquarePositive(z, zz); }
  }

  lemma Square(r: real, s: real)
    requires s == r * r
    ensures s >= 0.0
  {
  }

  lemma SquarePositive(r: real, s: real)
    requires r != 0.0 && s == r * r
    ensures s > 0.0
  {
    if r > 0.0 { ProductOf(r, r, s); } else { ProductOf(-r, -r, s); }
  }

  lemma ProductOf(r: real, s: real, p: real)
    requires r > 0.0 && s > 0.0 && p == r * s
    ensures p > 0.0
  {
  }

  /** Law of cosines around `q`. */
  lemma Dist2Expand(p: Vec, q: Vec, x: Vec)
    ensures Dist2(p, x) == Dist2(p, q) + Dist2(x, q) - 2.0 * Dot(Sub(p, q), Sub(x, q))
  {
  }

  // ---------------------------------------------------------------- optimality

  /** Residuals of the candidate `Blend(a, b, c, v, w)` along the two edges from `a`. */
  function Residuals(p: Vec, a: Vec, b: Vec, c: Vec, v: real, w: real): (real, real) {
    var q := Blend(a, b, c, v, w);
    (Dot(Sub(p, q), Sub(b, a)), Dot(Sub(p, q), Sub(c, a)))
  }

  lemma ResidualForm(p: Vec, a: Vec, b: Vec, c: Vec, v: real, w: real)
    ensures var ab, ac, ap := Sub(b, a), Sub(c, a), Sub(p, a);
            var g := Residuals(p, a, b, c, v, w);
            && g.0 == Dot(ab, ap) - (v * Dot(ab, ab) + w * Dot(ab, ac))
            && g.1 == Dot(ac, ap) - (v * Dot(ab, ac) + w * Dot(ac, ac))
  {
    hide Dot, Sub, Blend, Comb;
    var ab, ac, ap := Sub(b, a), Sub(c, a), Sub(p, a);
    var along := Comb(ab, v, ac, w);
    SubBlend(p, a, b, c, v, w);
    DotSub(ab, ap, along); DotComb(ab, ab, v, ac, w); DotSymmetric(ab, Sub(ap, along));
    DotSub(ac, ap, along); DotComb(ac, ab, v, ac, w); DotSymmetric(ac, Sub(ap, along));
    DotSymmetric(ac, ab);
  }

  lemma SubBlend(p: Vec, a: Vec, b: Vec, c: Vec, v: real, w: real)
    ensures Sub(p, Blend(a, b, c, v, w)) == Sub(Sub(p, a), Comb(Sub(b, a), v, Sub(c, a), w))
  {
  }

  lemma BlendDifference(a: Vec, b: Vec, c: Vec, s: real, t: real, v: real, w: real)
    ensures Sub(Blend(a, b, c, s, t), Blend(a, b, c, v, w)) == Comb(Sub(b, a), s - v, Sub(c, a), t - w)
  {
  }

  lemma DotSymmetric(u: Vec, v: Vec)
    ensures Dot(u, v) == Dot(v, u)
  {
  }

  /** The variational inequality: when the residual functional is largest at the candidate,
      the candidate is a closest point of the whole triangle. */
  lemma VariationalInequality(p: Vec, a: Vec, b: Vec, c: Vec, v: real, w: real, g: (real, real))
    requires Weights(v, w) && g == Residuals(p, a, b, c, v, w)
    requires v * g.0 + w * g.1 >= 0.0 && v * g.0 + w * g.1 >= g.0 && v * g.0 + w * g.1 >= g.1
    ensures Closest(p, a, b, c, Blend(a, b, c, v, w))
  {
    var q := Blend(a, b, c, v, w);
    forall s, t | Weights(s, t)
      ensures Dist2(p, q) <= Dist2(p, Blend(a, b, c, s, t))
    {
      NoCloser(p, a, b, c, v, w, g, s, t);
    }
  }

  lemma NoCloser(p: Vec, a: Vec, b: Vec, c: Vec, v: real, w: real, g: (real, real), s: real, t: real)
    requires Weights(s, t) && g == Residuals(p, a, b, c, v, w)
    requires v * g.0 + w * g.1 >= 0.0 && v * g.0 + w * g.1 >= g.0 && v * g.0 + w * g.1 >= g.1
    ensures Dist2(p, Blend(a, b, c, v, w)) <= Dist2(p, Blend(a, b, c, s, t))
  {
    var q, x := Blend(a, b, c, v, w), Blend(a, b, c, s, t);
    var away, g0, g1 := Sub(p, q), g.0, g.1;
    assert g0 == Dot(away, Sub(b, a)) && g1 == Dot(away, Sub(c, a));
    var towards := Dot(away, Sub(x, q));
    hide *;
    Towards(away, a, b, c, s, t, v, w, g0, g1);
    MaximalAt(s, t, v, w, g0, g1);
    var far, near, gap := Dist2(p, x), Dist2(p, q), Dist2(x, q);
    GapNonNegative(x, q);
    Dist2Expand(p, q, x);
    assert far == near + gap - 2.0 * towards;
    assert gap >= 0.0;
    assert towards <= 0.0;
    Conclude(far, near, gap, towards);
  }

  lemma Towards(away: Vec, a: Vec, b: Vec, c: Vec, s: real, t: real, v: real, w: real, g0: real, g1: real)
    requires g0 == Dot(away, Sub(b, a)) && g1 == Dot(away, Sub(c, a))
    ensures Dot(away, Sub(Blend(a, b, c, s, t), Blend(a, b, c, v, w))) == (s - v) * g0 + (t - w) * g1
  {
    hide *;
    BlendDifference(a, b, c, s, t, v, w);
    DotComb(away, Sub(b, a), s - v, Sub(c, a), t - w);
  }

  lemma GapNonNegative(q: Vec, r: Vec)
    ensures Dist2(q, r) >= 0.0
  {
    DotNonNegative(Sub(q, r));
  }

  lemma Conclude(far: real, near: real, gap: real, towards: real)
    requires far == near + gap - 2.0 * towards && gap >= 0.0 && towards <= 0.0
    ensures near <= far
  {
  }

  /** A linear functional is maximal on the simplex at weights that dominate its three vertices. */
  lemma MaximalAt(s: real, t: real, v: real, w: real, g0: real, g1: real)
    requires Weights(s, t)
    requires v * g0 + w * g1 >= 0.0 && v * g0 + w * g1 >= g0 && v * g0 + w * g1 >= g1
    ensures (s - v) * g0 + (t - w) * g1 <= 0.0
  {
    var m := v * g0 + w * g1;
    assert s * g0 + t * g1 <= m by {
      Bounded(s, t, g0, g1, m);
    }
    Spread(s, v, g0);
    Spread(t, w, g1);
  }

  lemma Bounded(s: real, t: real, g0: real, g1: real, m: real)
    requires Weights(s, t) && m >= 0.0 && m >= g0 && m >= g1
    ensures s * g0 + t * g1 <= m
  {
    calc {
      s * g0 + t * g1;
    <= { Scaled(s, g0, m); Scaled(t, g1, m); }
      s * m + t * m;
    == { Gather(s, t, m); }
      m * (s + t);
    <= { Scaled(m, s + t, 1.0); }
      m;
    }
  }

  lemma Gather(s: real, t: real, m: real)
    ensures s * m + t * m == m * (s + t)
  {
  }

  lemma Spread(s: real, v: real, g: real)
    ensures (s - v) * g == s * g - v * g
  {
  }

  lemma Scaled(k: real, x: real, y: real)
    requires k >= 0.0 && x <= y
    ensures k * x <= k * y
  {
  }

  // ---------------------------------------------------------------- edges and vertices

  /** A point of the edge from `a` to `b` at parameter d1 / A, when the other residual does not pull away. */
  lemma EdgeResidual(A: real, B: real, d1: real, d2: real, v: real)
    requires A > 0.0 && v * A == d1 && A * d2 - d1 * B <= 0.0
    ensures d2 - v * B <= 0.0
  {
  }

  lemma Quotient(n: real, d: real)
    requires d > 0.0 && 0.0 <= n <= d
    ensures 0.0 <= n / d <= 1.0 && (n / d) * d == n
  {
  }

  /** The three barycentric numerators in Gram form, and their sum, the Gram determinant. */
  lemma Numerators(A: real, B: real, C: real, d1: real, d2: real)
    ensures var d3, d4, d5, d6 := d1 - A, d2 - B, d1 - B, d2 - C;
            && d1 * d4 - d3 * d2 == A * d2 - d1 * B
            && d5 * d2 - d1 * d6 == C * d1 - d2 * B
            && d3 * d6 - d5 * d4 == (A * C - B * B) - (A * d2 - d1 * B) - (C * d1 - d2 * B)
  {
  }

  /** Past the end of an edge, on its outer side: the adjacent edge is outside too. */
  lemma OuterCorner(A: real, B: real, C: real, d1: real, d2: real)
    requires A > 0.0 && A * C - B * B >= 0.0
    requires d1 < 0.0 && d2 > 0.0 && A * d2 - d1 * B <= 0.0
    ensures C * d1 - d2 * B <= 0.0
    ensures d2 > C ==> d1 < B
  {
  }

  /** Relabelling the vertices keeps the Gram determinant and permutes the numerators. */
  lemma Relabel(A: real, B: real, C: real, d1: real, d2: real)
    ensures var E := A - 2.0 * B + C;
            var d3, d4, d5, d6 := d1 - A, d2 - B, d1 - B, d2 - C;
            var vc, vb := A * d2 - d1 * B, C * d1 - d2 * B;
            var va := (A * C - B * B) - vc - vb;
            && A * E - (A - B) * (A - B) == A * C - B * B
            && C * E - (C - B) * (C - B) == A * C - B * B
            && A * (d4 - d3) + d3 * (A - B) == vc
            && C * (d5 - d6) + d6 * (C - B) == vb
            && E * (-d3) - (d4 - d3) * (A - B) == va
            && E * (-d6) - (d5 - d6) * (C - B) == va
  {
  }

  /** Once every vertex and edge test has failed, the projection is strictly inside. */
  lemma StrictlyInside(A: real, B: real, C: real, d1: real, d2: real)
    requires A > 0.0 && C > 0.0 && A - 2.0 * B + C > 0.0 && A * C - B * B >= 0.0
    requires var d3, d4, d5, d6 := d1 - A, d2 - B, d1 - B, d2 - C;
             var vc, vb := A * d2 - d1 * B, C * d1 - d2 * B;
             var va := (A * C - B * B) - vc - vb;
             && !(d1 <= 0.0 && d2 <= 0.0)
             && !(d3 >= 0.0 && d4 <= d3)
             && !(vc <= 0.0 && d1 >= 0.0 && d3 <= 0.0)
             && !(d6 >= 0.0 && d5 <= d6)
             && !(vb <= 0.0 && d2 >= 0.0 && d6 <= 0.0)
             && !(va <= 0.0 && d4 - d3 >= 0.0 && d5 - d6 >= 0.0)
    ensures A * d2 - d1 * B > 0.0
    ensures C * d1 - d2 * B > 0.0
    ensures (A * C - B * B) - (A * d2 - d1 * B) - (C * d1 - d2 * B) > 0.0
  {
    var E := A - 2.0 * B + C;
    var d3, d4, d5, d6 := d1 - A, d2 - B, d1 - B, d2 - C;
    var vc, vb := A * d2 - d1 * B, C * d1 - d2 * B;
    var va := (A * C - B * B) - vc - vb;
    Relabel(A, B, C, d1, d2);
    if vc <= 0.0 {
      if d1 < 0.0 { OuterCorner(A, B, C, d1, d2); } else { OuterCorner(A, A - B, E, -d3, d4 - d3); }
      assert false;
    }
    if vb <= 0.0 {
      if d2 < 0.0 { OuterCorner(C, B, A, d2, d1); } else { OuterCorner(C, C - B, E, -d6, d5 - d6); }
      assert false;
    }
    if va <= 0.0 {
      if d4 - d3 < 0.0 { OuterCorner(E, A - B, A, d4 - d3, -d3); } else { OuterCorner(E, C - B, C, d5 - d6, -d6); }
      assert false;
    }
  }

  // ---------------------------------------------------------------- Gram facts of real edges

  lemma EdgeGram(a: Vec, b: Vec, c: Vec, A: real, B: real, C: real)
    requires A == Dot(Sub(b, a), Sub(b, a)) && B == Dot(Sub(b, a), Sub(c, a)) && C == Dot(Sub(c, a), Sub(c, a))
    ensures A >= 0.0 && (a != b ==> A > 0.0)
    ensures C >= 0.0 && (a != c ==> C > 0.0)
    ensures A - 2.0 * B + C >= 0.0 && (b != c ==> A - 2.0 * B + C > 0.0)
    ensures A * C - B * B >= 0.0
  {
    hide Dot;
    EdgeLength(a, b, A);
    EdgeLength(a, c, C);
    assert Sub(c, b) == Sub(Sub(c, a), Sub(b, a));
    SideGram(Sub(b, a), Sub(c, a));
    EdgeLength(b, c, A - 2.0 * B + C);
    CauchySchwarz(Sub(b, a), Sub(c, a));
  }

  lemma EdgeLength(a: Vec, b: Vec, A: real)
    requires A == Dot(Sub(b, a), Sub(b, a))
    ensures A >= 0.0 && (a != b ==> A > 0.0)
  {
    hide Dot;
    DotNonNegative(Sub(b, a));
    if a != b {
      assert Sub(b, a) != Vec(0.0, 0.0, 0.0);
      DotPositive(Sub(b, a));
    }
  }

  lemma SideGram(u: Vec, w: Vec)
    ensures Dot(Sub(w, u), Sub(w, u)) == Dot(u, u) - 2.0 * Dot(u, w) + Dot(w, w)
  {
  }

  lemma CauchySchwarz(u: Vec, w: Vec)
    ensures Dot(u, u) * Dot(w, w) - Dot(u, w) * Dot(u, w) >= 0.0
  {
    Lagrange(u.x, u.y, u.z, w.x, w.y, w.z);
  }

  lemma Lagrange(a: real, b: real, c: real, d: real, e: real, f: real)
    ensures (a * a + b * b + c * c) * (d * d + e * e + f * f) - (a * d + b * e + c * f) * (a * d + b * e + c * f) >= 0.0
  {
  }

  // ---------------------------------------------------------------- main results

  /** The scalars of the source's branches for one query: edge Gram matrix and the two projections. */
  ghost predicate Scalars(p: Vec, a: Vec, b: Vec, c: Vec, A: real, B: real, C: real, d1: real, d2: real) {
    && A == Dot(Sub(b, a), Sub(b, a)) && B == Dot(Sub(b, a), Sub(c, a)) && C == Dot(Sub(c, a), Sub(c, a))
    && d1 == Dot(Sub(b, a), Sub(p, a)) && d2 == Dot(Sub(c, a), Sub(p, a))
  }

  /** A candidate given by weights is optimal when its residuals dominate, in Gram form. */
  lemma OptimalBlend(p: Vec, a: Vec, b: Vec, c: Vec, A: real, B: real, C: real, d1: real, d2: real, v: real, w: real,
                     g: real, h: real)
    requires Scalars(p, a, b, c, A, B, C, d1, d2) && Weights(v, w)
    requires g == d1 - (v * A + w * B) && h == d2 - (v * B + w * C)
    requires v * g + w * h >= 0.0 && v * g + w * h >= g && v * g + w * h >= h
    ensures Closest(p, a, b, c, Blend(a, b, c, v, w))
  {
    hide Dot, Blend, Closest;
    ResidualForm(p, a, b, c, v, w);
    var r := Residuals(p, a, b, c, v, w);
    assert r.0 == g && r.1 == h by {
      DotSymmetric(Sub(c, a), Sub(b, a));
    }
    VariationalInequality(p, a, b, c, v, w, r);
  }

  lemma VertexOptimal(r: Region, p: Vec, a: Vec, b: Vec, c: Vec, A: real, B: real, C: real, d1: real, d2: real)
    requires Scalars(p, a, b, c, A, B, C, d1, d2)
    requires r == Classify(d1, d2, d1 - A, d2 - B, d1 - B, d2 - C)
    ensures r == VertexA ==> Closest(p, a, b, c, a)
    ensures r == VertexB ==> Closest(p, a, b, c, b)
    ensures r == VertexC ==> Closest(p, a, b, c, c)
  {
    assert Blend(a, b, c, 0.0, 0.0) == a && Blend(a, b, c, 1.0, 0.0) == b && Blend(a, b, c, 0.0, 1.0) == c;
    match r {
      case VertexA => OptimalBlend(p, a, b, c, A, B, C, d1, d2, 0.0, 0.0, d1, d2);
      case VertexB => OptimalBlend(p, a, b, c, A, B, C, d1, d2, 1.0, 0.0, d1 - A, d2 - B);
      case VertexC => OptimalBlend(p, a, b, c, A, B, C, d1, d2, 0.0, 1.0, d1 - B, d2 - C);
      case _ =>
    }
  }

  lemma EdgeABOptimal(p: Vec, a: Vec, b: Vec, c: Vec, A: real, B: real, C: real, d1: real, d2: real)
    requires Scalars(p, a, b, c, A, B, C, d1, d2) && A > 0.0
    requires A * d2 - d1 * B <= 0.0 && 0.0 <= d1 <= A
    ensures Closest(p, a, b, c, Along(a, b, d1 / A))
  {
    var v := d1 / A;
    Quotient(d1, A);
    assert Along(a, b, v) == Blend(a, b, c, v, 0.0);
    EdgeResidual(A, B, d1, d2, v);
    OptimalBlend(p, a, b, c, A, B, C, d1, d2, v, 0.0, 0.0, d2 - v * B);
  }

  lemma EdgeACOptimal(p: Vec, a: Vec, b: Vec, c: Vec, A: real, B: real, C: real, d1: real, d2: real)
    requires Scalars(p, a, b, c, A, B, C, d1, d2) && C > 0.0
    requires C * d1 - d2 * B <= 0.0 && 0.0 <= d2 <= C
    ensures Closest(p, a, b, c, Along(a, c, d2 / C))
  {
    var w := d2 / C;
    Quotient(d2, C);
    assert Along(a, c, w) == Blend(a, b, c, 0.0, w);
    EdgeResidual(C, B, d2, d1, w);
    OptimalBlend(p, a, b, c, A, B, C, d1, d2, 0.0, w, d1 - w * B, 0.0);
  }

  lemma EdgeBCOptimal(p: Vec, a: Vec, b: Vec, c: Vec, A: real, B: real, C: real, d1: real, d2: real)
    requires Scalars(p, a, b, c, A, B, C, d1, d2) && A - 2.0 * B + C > 0.0
    requires (A * C - B * B) - (A * d2 - d1 * B) - (C * d1 - d2 * B) <= 0.0
    requires var d3, d4, d5, d6 := d1 - A, d2 - B, d1 - B, d2 - C; d4 - d3 >= 0.0 && d5 - d6 >= 0.0
    ensures Closest(p, a, b, c, Along(b, c, (d2 - B - (d1 - A)) / (A - 2.0 * B + C)))
  {
    hide Dot, Closest, Blend, Along;
    var E, n := A - 2.0 * B + C, d2 - B - (d1 - A);
    var w := n / E;
    Quotient(n, E);
    BetweenIsBlend(a, b, c, w);
    BetweenOptimal(p, a, b, c, A, B, C, d1, d2, 1.0 - w, w);
  }

  lemma BetweenOptimal(p: Vec, a: Vec, b: Vec, c: Vec, A: real, B: real, C: real, d1: real, d2: real, v: real, w: real)
    requires Scalars(p, a, b, c, A, B, C, d1, d2) && Weights(v, w) && v == 1.0 - w
    requires A - 2.0 * B + C > 0.0 && w * (A - 2.0 * B + C) == d2 - B - (d1 - A)
    requires (A * C - B * B) - (A * d2 - d1 * B) - (C * d1 - d2 * B) <= 0.0
    ensures Closest(p, a, b, c, Blend(a, b, c, v, w))
  {
    hide Dot, Closest, Blend;
    var g, h := d1 - (v * A + w * B), d2 - (v * B + w * C);
    BetweenResiduals(A, B, C, d1, d2, w, g, h);
    Unit(v, w, g);
    OptimalBlend(p, a, b, c, A, B, C, d1, d2, v, w, g, h);
  }

  lemma Unit(v: real, w: real, g: real)
    requires v + w == 1.0
    ensures v * g + w * g == g
  {
  }

  lemma BetweenIsBlend(a: Vec, b: Vec, c: Vec, w: real)
    ensures Along(b, c, w) == Blend(a, b, c, 1.0 - w, w)
  {
  }

  lemma BetweenResiduals(A: real, B: real, C: real, d1: real, d2: real, w: real, g: real, h: real)
    requires A - 2.0 * B + C > 0.0 && w * (A - 2.0 * B + C) == d2 - B - (d1 - A)
    requires (A * C - B * B) - (A * d2 - d1 * B) - (C * d1 - d2 * B) <= 0.0
    requires g == d1 - ((1.0 - w) * A + w * B) && h == d2 - ((1.0 - w) * B + w * C)
    ensures g == h && g >= 0.0
  {
  }

  lemma InteriorOptimal(p: Vec, a: Vec, b: Vec, c: Vec, A: real, B: real, C: real, d1: real, d2: real,
                        vb: real, vc: real, det: real, inv: real)
    requires Scalars(p, a, b, c, A, B, C, d1, d2)
    requires det == A * C - B * B && vc == A * d2 - d1 * B && vb == C * d1 - d2 * B
    requires vc > 0.0 && vb > 0.0 && det - vc - vb > 0.0 && inv == 1.0 / det
    ensures Closest(p, a, b, c, Blend(a, b, c, vb * inv, vc * inv))
  {
    hide Closest, Blend;
    InteriorWeights(det, vb, vc, inv);
    InteriorResiduals(A, B, C, d1, d2, det, inv, vb * inv, vc * inv);
    OptimalBlend(p, a, b, c, A, B, C, d1, d2, vb * inv, vc * inv, 0.0, 0.0);
  }

  lemma InteriorWeights(det: real, vb: real, vc: real, inv: real)
    requires vb > 0.0 && vc > 0.0 && det - vc - vb > 0.0 && inv == 1.0 / det
    ensures Weights(vb * inv, vc * inv) && inv * det == 1.0
  {
  }

  lemma InteriorResiduals(A: real, B: real, C: real, d1: real, d2: real, det: real, inv: real, v: real, w: real)
    requires det == A * C - B * B && inv * det == 1.0
    requires v == (C * d1 - d2 * B) * inv && w == (A * d2 - d1 * B) * inv
    ensures d1 - (v * A + w * B) == 0.0 && d2 - (v * B + w * C) == 0.0
  {
  }

  /** A degenerate edge is decided by the tests of vertex A, vertex B or edge AB. */
  lemma DegenerateStopsEarly(p: Vec, a: Vec, b: Vec, c: Vec, A: real, B: real, C: real, d1: real, d2: real)
    requires Scalars(p, a, b, c, A, B, C, d1, d2)
    requires a == b || a == c || b == c
    ensures Classify(d1, d2, d1 - A, d2 - B, d1 - B, d2 - C) in {VertexA, VertexB, EdgeAB}
  {
    hide Dot;
    EdgeLength(a, b, A);
    if a == b {
      ZeroEdge(a, b, Sub(b, a));
      ZeroEdge(a, b, Sub(c, a));
      ZeroEdge(a, b, Sub(p, a));
    } else if a == c {
      ZeroEdge(a, c, Sub(b, a));
      ZeroEdge(a, c, Sub(p, a));
    }
    assert d1 * (d2 - B) - (d1 - A) * d2 == 0.0;
  }

  lemma ZeroEdge(a: Vec, b: Vec, u: Vec)
    requires a == b
    ensures Dot(Sub(b, a), u) == 0.0 && Dot(u, Sub(b, a)) == 0.0
  {
  }

  lemma BarycentricValue(a: Vec, b: Vec, c: Vec, va: real, vb: real, vc: real, inv: real)
    requires va + vb + vc > 0.0 && inv == 1.0 / (va + vb + vc)
    ensures Barycentric(a, b, c, va, vb, vc) == Some(Inside(a, b, c, vb, vc, inv))
  {
  }

  lemma InteriorCorrect(p: Vec, a: Vec, b: Vec, c: Vec, A: real, B: real, C: real, d1: real, d2: real,
                        va: real, vb: real, vc: real)
    requires Scalars(p, a, b, c, A, B, C, d1, d2)
    requires va == (A * C - B * B) - vc - vb && vc == A * d2 - d1 * B && vb == C * d1 - d2 * B
    requires va > 0.0 && vb > 0.0 && vc > 0.0
    ensures var q := Barycentric(a, b, c, va, vb, vc); q.Some? && Closest(p, a, b, c, q.value)
  {
    hide Closest, Blend, Barycentric, Dot;
    var inv := 1.0 / (va + vb + vc);
    BarycentricValue(a, b, c, va, vb, vc, inv);
    InteriorOptimal(p, a, b, c, A, B, C, d1, d2, vb, vc, va + vb + vc, inv);
  }

  lemma EdgeRegionCorrect(p: Vec, a: Vec, b: Vec, c: Vec, A: real, B: real, C: real, d1: real, d2: real, r: Region)
    requires Scalars(p, a, b, c, A, B, C, d1, d2) && r in {EdgeAB, EdgeAC, EdgeBC}
    requires r == Classify(d1, d2, d1 - A, d2 - B, d1 - B, d2 - C)
    requires A > 0.0 && C > 0.0 && A - 2.0 * B + C > 0.0
    ensures var q := RegionPoint(r, a, b, c, d1, d2, d1 - A, d2 - B, d1 - B, d2 - C);
            q.Some? && Closest(p, a, b, c, q.value)
  {
    hide Dot, Closest, Along, Barycentric;
    Numerators(A, B, C, d1, d2);
    match r {
      case EdgeAB => EdgeABOptimal(p, a, b, c, A, B, C, d1, d2);
      case EdgeAC => EdgeACOptimal(p, a, b, c, A, B, C, d1, d2);
      case EdgeBC => EdgeBCOptimal(p, a, b, c, A, B, C, d1, d2);
    }
  }

  lemma InteriorRegionCorrect(p: Vec, a: Vec, b: Vec, c: Vec, A: real, B: real, C: real, d1: real, d2: real,
                              va: real, vb: real, vc: real)
    requires Scalars(p, a, b, c, A, B, C, d1, d2)
    requires Classify(d1, d2, d1 - A, d2 - B, d1 - B, d2 - C) == Interior
    requires A > 0.0 && C > 0.0 && A - 2.0 * B + C > 0.0 && A * C - B * B >= 0.0
    requires va == (A * C - B * B) - vc - vb && vc == A * d2 - d1 * B && vb == C * d1 - d2 * B
    ensures var q := Barycentric(a, b, c, va, vb, vc); q.Some? && Closest(p, a, b, c, q.value)
  {
    hide Dot, Closest, Barycentric;
    Numerators(A, B, C, d1, d2);
    StrictlyInside(A, B, C, d1, d2);
    InteriorCorrect(p, a, b, c, A, B, C, d1, d2, va, vb, vc);
  }

  lemma DegenerateCorrect(p: Vec, a: Vec, b: Vec, c: Vec, A: real, B: real, C: real, d1: real, d2: real, r: Region)
    requires Scalars(p, a, b, c, A, B, C, d1, d2)
    requires a == b || a == c || b == c
    requires r == Classify(d1, d2, d1 - A, d2 - B, d1 - B, d2 - C)
    ensures var q := RegionPoint(r, a, b, c, d1, d2, d1 - A, d2 - B, d1 - B, d2 - C);
            && (q == None <==> a == b && d2 > 0.0)
            && (q.Some? ==> Closest(p, a, b, c, q.value))
  {
    hide Dot, Closest, Along;
    DegenerateStopsEarly(p, a, b, c, A, B, C, d1, d2);
    EdgeLength(a, b, A);
    if a == b {
      ZeroEdge(a, b, Sub(b, a));
      ZeroEdge(a, b, Sub(c, a));
      ZeroEdge(a, b, Sub(p, a));
    }
    if r != EdgeAB {
      VertexOptimal(r, p, a, b, c, A, B, C, d1, d2);
    } else if a != b {
      Numerators(A, B, C, d1, d2);
      EdgeABOptimal(p, a, b, c, A, B, C, d1, d2);
    }
  }

  /** `_point_tri_dist` on every input: it returns infinity exactly when the first two vertices
      coincide and the third one lies ahead of the query, and otherwise the point it measures to is
      a closest point of the triangle, degenerate or not. */
  lemma ClosestPointCorrect(p: Vec, a: Vec, b: Vec, c: Vec)
    ensures ClosestPoint(p, a, b, c) == None <==> a == b && Dot(Sub(c, a), Sub(p, a)) > 0.0
    ensures ClosestPoint(p, a, b, c).Some? ==> Closest(p, a, b, c, ClosestPoint(p, a, b, c).value)
  {
    hide Dot, Closest, Classify, RegionPoint;
    var A, B, C := Dot(Sub(b, a), Sub(b, a)), Dot(Sub(b, a), Sub(c, a)), Dot(Sub(c, a), Sub(c, a));
    var d1, d2 := Dot(Sub(b, a), Sub(p, a)), Dot(Sub(c, a), Sub(p, a));
    GramForm(p, a, b, c);
    EdgeGram(a, b, c, A, B, C);
    var r := Classify(d1, d2, d1 - A, d2 - B, d1 - B, d2 - C);
    if a == b || a == c || b == c {
      DegenerateCorrect(p, a, b, c, A, B, C, d1, d2, r);
    } else if r in {EdgeAB, EdgeAC, EdgeBC} {
      EdgeRegionCorrect(p, a, b, c, A, B, C, d1, d2, r);
    } else if r == Interior {
      var d3, d4, d5, d6 := d1 - A, d2 - B, d1 - B, d2 - C;
      Numerators(A, B, C, d1, d2);
      InteriorRegionCorrect(p, a, b, c, A, B, C, d1, d2, d3 * d6 - d5 * d4, d5 * d2 - d1 * d6, d1 * d4 - d3 * d2);
      InteriorPoint(a, b, c, d1, d2, d3, d4, d5, d6);
    } else {
      VertexOptimal(r, p, a, b, c, A, B, C, d1, d2);
      VertexPoint(r, a, b, c, d1, d2, d1 - A, d2 - B, d1 - B, d2 - C);
    }
  }

  lemma InteriorPoint(a: Vec, b: Vec, c: Vec, d1: real, d2: real, d3: real, d4: real, d5: real, d6: real)
    ensures RegionPoint(Interior, a, b, c, d1, d2, d3, d4, d5, d6)
         == Barycentric(a, b, c, d3 * d6 - d5 * d4, d5 * d2 - d1 * d6, d1 * d4 - d3 * d2)
  {
  }

  lemma VertexPoint(r: Region, a: Vec, b: Vec, c: Vec, d1: real, d2: real, d3: real, d4: real, d5: real, d6: real)
    requires r in {VertexA, VertexB, VertexC}
    ensures RegionPoint(r, a, b, c, d1, d2, d3, d4, d5, d6)
         == Some(if r == VertexA then a else if r == VertexB then b else c)
  {
  }

  // ---------------------------------------------------------------- nearest feature

  /** What `tessellate` yields for the faces of a feature. */
  datatype Mesh = Mesh(verts: seq<Vec>, tris: seq<(nat, nat, nat)>)

  class FeatureRecord {
    const faces: Mesh
    var tessCache: Option<Mesh>

    ghost predicate Valid()
      reads this
    {
      tessCache.Some? ==> tessCache.value == faces
    }

    constructor (mesh: Mesh)
      ensures Valid() && faces == mesh
    {
      faces := mesh;
      tessCache := None;
    }

    /** The mesh of the record, computed at most once. */
    method CachedTess() returns (mesh: Mesh)
      requires Valid()
      modifies this
      ensures Valid() && mesh == faces && tessCache == Some(faces)
    {
      if tessCache.None? {
        tessCache := Some(faces);
      }
      mesh := tessCache.value;
    }
  }

  /** Squared distance to triangle `t` of a mesh; None for a bad index or an infinite distance. */
  function TriDist2(p: Vec, m: Mesh, t: nat): Option<real>
    requires t < |m.tris|
  {
    var (i, j, k) := m.tris[t];
    var n := |m.verts|;
    if i >= n || j >= n || k >= n then None else PointTriDist2(p, m.verts[i], m.verts[j], m.verts[k])
  }

  /** Per feature and triangle, the distance the search sees. */
  type Table = seq<seq<Option<real>>>

  ghost function Distances(p: Vec, m: Mesh): seq<Option<real>> {
    seq(|m.tris|, t requires 0 <= t < |m.tris| => TriDist2(p, m, t))
  }

  ghost function DistanceTable(p: Vec, meshes: seq<Mesh>): Table {
    seq(|meshes|, f requires 0 <= f < |meshes| => Distances(p, meshes[f]))
  }

  ghost predicate Hit(D: Table, f: nat, t: nat) {
    f < |D| && t < |D[f]| && D[f][t].Some?
  }

  predicate Before(g: nat, u: nat, f: nat, t: nat) { g < f || (g == f && u < t) }

  /** No triangle before (f, t) is nearer than `d`, and none of an earlier feature than `best` is as near. */
  ghost predicate NoneNearer(D: Table, f: nat, t: nat, best: nat, d: real) {
    forall g: nat, u: nat :: Hit(D, g, u) && Before(g, u, f, t) ==>
      d <= D[g][u].value && (g < best ==> d < D[g][u].value)
  }

  ghost predicate Attained(D: Table, f: nat, t: nat, best: nat, d: real) {
    exists u: nat :: Hit(D, best, u) && Before(best, u, f, t) && D[best][u] == Some(d)
  }

  /** `d` is the least distance before (f, t), first reached in feature `best`; both None when there is none. */
  ghost predicate LeastBefore(D: Table, f: nat, t: nat, best: Option<nat>, d: Option<real>) {
    match (best, d)
    case (None, None) => forall g: nat, u: nat :: Hit(D, g, u) ==> !Before(g, u, f, t)
    case (Some(b), Some(r)) => NoneNearer(D, f, t, b, r) && Attained(D, f, t, b, r)
    case _ => false
  }

  /** The tolerance test on a squared distance. */
  predicate Within(d: Option<real>, tol: real) { d.Some? && 0.0 <= tol && d.value <= tol * tol }

  /** The answer of `nearest`: the first feature reaching the overall minimum, when that is within tolerance. */
  ghost predicate IsNearest(p: Vec, meshes: seq<Mesh>, tol: real, best: Option<nat>) {
    exists first: Option<nat>, d: Option<real> ::
      LeastBefore(DistanceTable(p, meshes), |meshes|, 0, first, d) && best == if Within(d, tol) then first else None
  }

  ghost function Meshes(features: seq<FeatureRecord>): seq<Mesh> {
    seq(|features|, i requires 0 <= i < |features| => features[i].faces)
  }

  method Nearest(features: seq<FeatureRecord>, p: Vec, tol: real) returns (best: Option<nat>)
    requires forall rec :: rec in features ==> rec.Valid()
    modifies features
    ensures forall rec :: rec in features ==> rec.Valid()
    ensures IsNearest(p, Meshes(features), tol, best)
  {
    hide PointTriDist2;
    best := None;
    var bestD: Option<real> := None;
    ghost var D := DistanceTable(p, Meshes(features));
    var f := 0;
    while f < |features|
      invariant f <= |features|
      invariant forall rec :: rec in features ==> rec.Valid()
      invariant LeastBefore(D, f, 0, best, bestD)
    {
      var mesh := features[f].CachedTess();
      var n := |mesh.verts|;
      var t := 0;
      while t < |mesh.tris|
        invariant t <= |mesh.tris|
        invariant forall rec :: rec in features ==> rec.Valid()
        invariant LeastBefore(D, f, t, best, bestD)
      {
        var (i, j, k) := mesh.tris[t];
        ghost var best0, bestD0 := best, bestD;
        assert D[f][t] == TriDist2(p, mesh, t);
        if i < n && j < n && k < n {
          var d := PointTriDist2(p, mesh.verts[i], mesh.verts[j], mesh.verts[k]);
          if d.Some? && (bestD.None? || d.value < bestD.value) {
            bestD := d;
            best := Some(f);
          }
        }
        ExtendLeast(D, f, t, best0, bestD0, best, bestD);
        t := t + 1;
      }
      NextFeature(D, f, best, bestD);
      f := f + 1;
    }
    ghost var first := best;
    if !Within(bestD, tol) {
      best := None;
    }
    assert LeastBefore(D, |features|, 0, first, bestD);
  }

  lemma ExtendLeast(D: Table, f: nat, t: nat, best0: Option<nat>, d0: Option<real>, best: Option<nat>, d: Option<real>)
    requires f < |D| && t < |D[f]| && LeastBefore(D, f, t, best0, d0)
    requires (best, d) ==
             if D[f][t].Some? && (d0.None? || D[f][t].value < d0.value) then (Some(f), D[f][t]) else (best0, d0)
    ensures LeastBefore(D, f, t + 1, best, d)
  {
  }

  lemma NextFeature(D: Table, f: nat, best: Option<nat>, d: Option<real>)
    requires f < |D| && LeastBefore(D, f, |D[f]|, best, d)
    ensures LeastBefore(D, f + 1, 0, best, d)
  {
  }

  /** A surface point that the search can measure: on a triangle with good indices and a finite distance. */
  ghost predicate OnSurface(p: Vec, m: Mesh, t: nat, x: Vec) {
    && t < |m.tris|
    && var (i, j, k) := m.tris[t];
       i < |m.verts| && j < |m.verts| && k < |m.verts|
       && !(m.verts[i] == m.verts[j] && Dot(Sub(m.verts[k], m.verts[i]), Sub(p, m.verts[i])) > 0.0)
       && InTriangle(x, m.verts[i], m.verts[j], m.verts[k])
  }

  /** End to end: a returned feature holds a surface point within tolerance that no surface point of
      any feature beats, and that every surface point of an earlier feature is strictly farther than;
      when nothing is returned, every surface point is out of tolerance. */
  lemma NearestMeaning(p: Vec, meshes: seq<Mesh>, tol: real, best: Option<nat>)
    requires IsNearest(p, meshes, tol, best) && 0.0 <= tol
    ensures best.Some? ==> best.value < |meshes| && exists t: nat, q :: SurfaceBest(p, meshes, tol, best.value, t, q)
    ensures best.None? ==>
              forall g: nat, u: nat, x :: g < |meshes| && OnSurface(p, meshes[g], u, x) ==> Dist2(p, x) > tol * tol
  {
    hide Dot, InTriangle, ClosestPoint, TriDist2;
    var D := DistanceTable(p, meshes);
    var first: Option<nat>, d: Option<real> :| LeastBefore(D, |meshes|, 0, first, d) && best == if Within(d, tol) then first else None;
    forall g: nat, u: nat, x | g < |meshes| && OnSurface(p, meshes[g], u, x)
      ensures d.Some? && d.value <= Dist2(p, x) && (g < first.value ==> d.value < Dist2(p, x))
    {
      MeasuredAtMost(p, meshes[g], u, x);
      assert Hit(D, g, u) && Before(g, u, |meshes|, 0);
    }
    if best.Some? {
      var t: nat :| Hit(D, first.value, t) && Before(first.value, t, |meshes|, 0) && D[first.value][t] == d;
      var q := MeasuredPoint(p, meshes[first.value], t, d.value);
      assert SurfaceBest(p, meshes, tol, best.value, t, q);
    }
  }

  ghost predicate SurfaceBest(p: Vec, meshes: seq<Mesh>, tol: real, f: nat, t: nat, q: Vec) {
    && f < |meshes| && OnSurface(p, meshes[f], t, q) && Dist2(p, q) <= tol * tol
    && forall g: nat, u: nat, x :: g < |meshes| && OnSurface(p, meshes[g], u, x) ==>
         Dist2(p, q) <= Dist2(p, x) && (g < f ==> Dist2(p, q) < Dist2(p, x))
  }

  lemma MeasuredAtMost(p: Vec, m: Mesh, t: nat, x: Vec)
    requires OnSurface(p, m, t, x)
    ensures TriDist2(p, m, t).Some? && TriDist2(p, m, t).value <= Dist2(p, x)
  {
    hide Dot, ClosestPoint, Blend;
    var (i, j, k) := m.tris[t];
    ClosestPointCorrect(p, m.verts[i], m.verts[j], m.verts[k]);
  }

  lemma MeasuredPoint(p: Vec, m: Mesh, t: nat, d: real) returns (q: Vec)
    requires t < |m.tris| && TriDist2(p, m, t) == Some(d)
    ensures OnSurface(p, m, t, q) && Dist2(p, q) == d
  {
    hide Dot, ClosestPoint, Blend;
    var (i, j, k) := m.tris[t];
    ClosestPointCorrect(p, m.verts[i], m.verts[j], m.verts[k]);
    q := ClosestPoint(p, m.verts[i], m.verts[j], m.verts[k]).value;
  }
}
