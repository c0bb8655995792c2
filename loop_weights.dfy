/** The weights of Loop subdivision (loop_subdivision.py:552-669): the point
    arithmetic, the colour blend and the vertex and edge weights, on plain values. */
module LoopWeights {
  import opened MeshGeometry

  // ---------------------------------------------------------------
  // Point arithmetic
  // ---------------------------------------------------------------

  /** addPoints: the component-wise sum. */
  function AddPoints(p: Point, q: Point): Point {
    Point(p.x + q.x, p.y + q.y, p.z + q.z)
  }

  /** scalePoint: every component times s. */
  function ScalePoint(p: Point, s: real): Point {
    Point(s * p.x, s * p.y, s * p.z)
  }

  /** The two operations make points a vector space over the reals: the
      laws the weight rules are proved with. */
  lemma PointAlgebra(p: Point, q: Point, r: Point, a: real, b: real)
    ensures AddPoints(p, q) == AddPoints(q, p)
    ensures AddPoints(AddPoints(p, q), r) == AddPoints(p, AddPoints(q, r))
    ensures ScalePoint(AddPoints(p, q), a) == AddPoints(ScalePoint(p, a), ScalePoint(q, a))
    ensures AddPoints(ScalePoint(p, a), ScalePoint(p, b)) == ScalePoint(p, a + b)
    ensures ScalePoint(p, 1.0) == p
  {
    assert a * (p.x + q.x) == a * p.x + a * q.x;
    assert a * (p.y + q.y) == a * p.y + a * q.y;
    assert a * (p.z + q.z) == a * p.z + a * q.z;
    assert a * p.x + b * p.x == (a + b) * p.x;
    assert a * p.y + b * p.y == (a + b) * p.y;
    assert a * p.z + b * p.z == (a + b) * p.z;
  }

  // ---------------------------------------------------------------
  // Colour of a new edge vertex
  // ---------------------------------------------------------------

  /** blendColor exactly as written: every channel adds the RED channel
      of the first colour to the matching channel of the second. */
  function BlendColorAsWritten(c0: Color, c1: Color): (r: Color)
    ensures r.r == BlendColor(c0, c1).r
    ensures r.g == BlendColor(c0, c1).g <==> c0.g == c0.r
    ensures r.b == BlendColor(c0, c1).b <==> c0.b == c0.r
  {
    Color(0.5 * (c0.r + c1.r), 0.5 * (c0.r + c1.g), 0.5 * (c0.r + c1.b))
  }

  /** blendColor as its documentation describes it: the channel-wise mean
      of the two colours. The pass uses this one. */
  function BlendColor(c0: Color, c1: Color): (r: Color)
    ensures r.r + r.r == c0.r + c1.r && r.g + r.g == c0.g + c1.g && r.b + r.b == c0.b + c1.b
  {
    Color(0.5 * (c0.r + c1.r), 0.5 * (c0.g + c1.g), 0.5 * (c0.b + c1.b))
  }

  /** The mean is symmetric, leaves a single colour unchanged and puts
      every channel between the two it blends. */
  lemma BlendColorIsMean(c0: Color, c1: Color)
    ensures BlendColor(c0, c1) == BlendColor(c1, c0)
    ensures BlendColor(c0, c0) == c0
    ensures var m := BlendColor(c0, c1);
            (c0.r <= m.r <= c1.r || c1.r <= m.r <= c0.r) &&
            (c0.g <= m.g <= c1.g || c1.g <= m.g <= c0.g) &&
            (c0.b <= m.b <= c1.b || c1.b <= m.b <= c0.b)
  {
  }

  /** Blending green with black as written gives black: the green
      channel of the first colour is never read. */
  lemma BlendColorAsWrittenLosesGreen()
    ensures BlendColorAsWritten(Color(0.0, 1.0, 0.0), Color(0.0, 0.0, 0.0)) == Color(0.0, 0.0, 0.0)
  {
  }

  /** The mean of green and black is half green. */
  lemma BlendColorKeepsGreen()
    ensures BlendColor(Color(0.0, 1.0, 0.0), Color(0.0, 0.0, 0.0)) == Color(0.0, 0.5, 0.0)
  {
  }

  /** As written, blending a colour with itself can change it. */
  lemma BlendColorAsWrittenNotIdempotent()
    ensures BlendColorAsWritten(Color(0.0, 1.0, 0.0), Color(0.0, 1.0, 0.0)) == Color(0.0, 0.5, 0.0)
  {
  }

  /** On the default purple (1, 0, 1) of a freshly loaded mesh, the blend
      as written gives (1, 0.5, 1), while the mean keeps the purple. */
  lemma BlendColorAsWrittenOnPurple()
    ensures BlendColorAsWritten(Color(1.0, 0.0, 1.0), Color(1.0, 0.0, 1.0)) == Color(1.0, 0.5, 1.0)
    ensures BlendColor(Color(1.0, 0.0, 1.0), Color(1.0, 0.0, 1.0)) == Color(1.0, 0.0, 1.0)
  {
  }

  // ---------------------------------------------------------------
  // The vertex weight
  // ---------------------------------------------------------------

  /** The factor of Beta that does not depend on n: 5/8 - (3/8 + c/4)^2. */
  function Spread(c: real): real {
    5.0 / 8.0 - (3.0 / 8.0 + 0.25 * c) * (3.0 / 8.0 + 0.25 * c)
  }

  /** Beta(n) for a fan of n triangles, with c standing for cos(2*pi/n)
      (the cosine is computed by the floating-point library and is a
      parameter here). */
  function Beta(n: nat, c: real): (b: real)
    requires n > 0
    ensures n as real * b == Spread(c)
  {
    (1.0 / n as real) * Spread(c)
  }

  /** The regular interior vertex of valence 6 (cos(pi/3) = 1/2) gets the
      classical weight 1/16. */
  lemma BetaSix()
    ensures Beta(6, 0.5) == 1.0 / 16.0
  {
    assert Spread(0.5) == 3.0 / 8.0;
  }

  /** The factor lies strictly between 0 and 1 for every cosine value. */
  lemma SpreadBounds(c: real)
    requires -1.0 <= c <= 1.0
    ensures 0.0 < Spread(c) < 1.0
  {
    var u := 3.0 / 8.0 + 0.25 * c;
    assert 1.0 / 8.0 <= u <= 5.0 / 8.0;
    assert u * u <= 5.0 / 8.0 * u;
    assert 5.0 / 8.0 * u <= 25.0 / 64.0;
  }

  /** A share b of d in (0, 1) among m >= 1 parts is positive, and m
      shares make d again, so they stay below 1. */
  lemma Share(m: real, d: real, b: real)
    requires m >= 1.0 && 0.0 < d < 1.0 && b == (1.0 / m) * d
    ensures m * b == d
    ensures m * b < 1.0
    ensures 0.0 < b
  {
    var k := 1.0 / m;
    assert 0.0 < k && m * k == 1.0;
    assert b == k * d;
    assert 0.0 < k * d;
    assert m * b == (m * k) * d;
    assert (m * k) * d == d;
  }

  /** For every cosine value the weights of the interior rule are a
      convex combination: each ring vertex gets a positive weight and the
      centre vertex keeps a positive one, 1 - n * Beta(n). */
  lemma BetaConvex(n: nat, c: real)
    requires n > 0 && -1.0 <= c <= 1.0
    ensures 0.0 < Beta(n, c)
    ensures n as real * Beta(n, c) < 1.0
  {
    SpreadBounds(c);
    Share(n as real, Spread(c), Beta(n, c));
    assert (n as real) * Beta(n, c) == Spread(c);
  }

  /** One coordinate of the interior vertex rule: the ring sum s scaled by
      b, plus k times the centre coordinate c. */
  function Mix(s: real, c: real, b: real, k: real): real {
    s * b + k * c
  }

  /** The interior vertex rule, coordinate by coordinate: b times the sum
      of the n ring vertices plus k = 1 - n * b times the centre. */
  function Reposition(p: Point, sum: Point, b: real, k: real): Point {
    Point(Mix(sum.x, p.x, b, k), Mix(sum.y, p.y, b, k), Mix(sum.z, p.z, b, k))
  }

  /** With k = 1 - m * b, shifting the centre and each of m ring values by
      d shifts the coordinate by d; m ring values equal to the centre give
      the centre back. */
  lemma MixAffine(c: real, s: real, d: real, m: real, b: real)
    ensures Mix(s + m * d, c + d, b, 1.0 - m * b) == Mix(s, c, b, 1.0 - m * b) + d
    ensures Mix(m * c, c, b, 1.0 - m * b) == c
  {
    assert (s + m * d) * b == s * b + (m * b) * d;
    assert (1.0 - m * b) * (c + d) == (1.0 - m * b) * c + d - (m * b) * d;
    assert (m * c) * b == (m * b) * c;
  }

  /** n ring vertices at the centre give the centre back, for every b:
      the weights add up to one. */
  lemma RepositionKeepsPoint(p: Point, n: nat, b: real)
    ensures Reposition(p, ScalePoint(p, n as real), b, 1.0 - n as real * b) == p
  {
    var m := n as real;
    assert ScalePoint(p, m) == Point(m * p.x, m * p.y, m * p.z);
    MixAffine(p.x, 0.0, 0.0, m, b);
    MixAffine(p.y, 0.0, 0.0, m, b);
    MixAffine(p.z, 0.0, 0.0, m, b);
  }

  /** Shifting the centre and the n ring vertices by d shifts the result
      by d. */
  lemma RepositionTranslates(p: Point, sum: Point, d: Point, n: nat, b: real)
    ensures Reposition(AddPoints(p, d), AddPoints(sum, ScalePoint(d, n as real)), b, 1.0 - n as real * b) ==
            AddPoints(Reposition(p, sum, b, 1.0 - n as real * b), d)
  {
    var m := n as real;
    assert AddPoints(sum, ScalePoint(d, m)) == Point(sum.x + m * d.x, sum.y + m * d.y, sum.z + m * d.z);
    MixAffine(p.x, sum.x, d.x, m, b);
    MixAffine(p.y, sum.y, d.y, m, b);
    MixAffine(p.z, sum.z, d.z, m, b);
  }

  /** The boundary edge rule: half of each end. */
  function BoundaryMidpoint(p: Point, q: Point): Point {
    AddPoints(ScalePoint(p, 0.5), ScalePoint(q, 0.5))
  }

  /** The interior edge rule: 3/8 of each end and 1/8 of each corner
      opposite the edge. */
  function InteriorMidpoint(f0: Point, p: Point, q: Point, f1: Point): Point {
    AddPoints(AddPoints(ScalePoint(f0, 1.0 / 8.0), ScalePoint(p, 3.0 / 8.0)),
              AddPoints(ScalePoint(q, 3.0 / 8.0), ScalePoint(f1, 1.0 / 8.0)))
  }

  /** Both edge rules are affine combinations (their weights add up to
      one): they keep a point where every input is, and they move with
      the inputs under a translation. Neither cares which end comes first. */
  lemma MidpointsAffine(f0: Point, p: Point, q: Point, f1: Point, d: Point)
    ensures BoundaryMidpoint(p, p) == p && InteriorMidpoint(p, p, p, p) == p
    ensures BoundaryMidpoint(AddPoints(p, d), AddPoints(q, d)) == AddPoints(BoundaryMidpoint(p, q), d)
    ensures InteriorMidpoint(AddPoints(f0, d), AddPoints(p, d), AddPoints(q, d), AddPoints(f1, d)) ==
            AddPoints(InteriorMidpoint(f0, p, q, f1), d)
    ensures BoundaryMidpoint(p, q) == BoundaryMidpoint(q, p)
    ensures InteriorMidpoint(f0, p, q, f1) == InteriorMidpoint(f0, q, p, f1) == InteriorMidpoint(f1, q, p, f0)
  {
  }
}
