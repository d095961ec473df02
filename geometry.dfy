/** Click-box point sampling (`MouseMoveClickBox._random_point_in_triangle`
    and `_get_rand_point`; `ClickBox` in bot.py and the older instruction set
    use the same code). A quadrilateral v0..v3 is cut along the diagonal
    v0-v2; a coin picks (v0, v1, v2) or (v0, v2, v3), and two draws s, t pick
    a point of that triangle. The draws of `random.random()` are parameters,
    each in [0, 1). */
module Geometry {

  /** A corner of a click box: the source builds corners with `int(...)`. */
  datatype Vertex = Vertex(x: int, y: int)

  /** A sampled point: the sampler's arithmetic is on floats, real here. */
  datatype Point = Point(x: real, y: real)

  /** A value `random.random()` can return. */
  predicate IsDraw(r: real) { 0.0 <= r < 1.0 }

  /** Barycentric weights for three vertices. */
  predicate IsConvexWeights(a: real, b: real, c: real)
  {
    a >= 0.0 && b >= 0.0 && c >= 0.0 && a + b + c == 1.0
  }

  /** The reflection step: when s + t > 1 both draws are replaced by 1 - s
      and 1 - t, which folds the unit square onto the triangle s, t >= 0,
      s + t <= 1. */
  function Fold(s: real, t: real): (st: (real, real))
    requires IsDraw(s) && IsDraw(t)
    ensures IsConvexWeights(1.0 - st.0 - st.1, st.0, st.1)
    ensures s + t <= 1.0 ==> st == (s, t)
  {
    if s + t > 1.0 then (1.0 - s, 1.0 - t) else (s, t)
  }

  /** a * x1 + b * x2 + c * x3. */
  function Weighted(a: real, b: real, c: real, x1: real, x2: real, x3: real): real
  {
    a * x1 + b * x2 + c * x3
  }

  /** a * v1 + b * v2 + c * v3. */
  function Combination(a: real, b: real, c: real, v1: Vertex, v2: Vertex, v3: Vertex): Point
  {
    Point(Weighted(a, b, c, v1.x as real, v2.x as real, v3.x as real),
          Weighted(a, b, c, v1.y as real, v2.y as real, v3.y as real))
  }

  /** `_random_point_in_triangle(v1, v2, v3)` with draws s and t:
      v1 + s * (v2 - v1) + t * (v3 - v1) after the reflection step. */
  function RandomPointInTriangle(v1: Vertex, v2: Vertex, v3: Vertex, s: real, t: real): Point
    requires IsDraw(s) && IsDraw(t)
  {
    var st := Fold(s, t);
    Point(v1.x as real + st.0 * (v2.x - v1.x) as real + st.1 * (v3.x - v1.x) as real,
          v1.y as real + st.0 * (v2.y - v1.y) as real + st.1 * (v3.y - v1.y) as real)
  }

  /** The sampled point is the convex combination (1 - s' - t') v1 + s' v2 + t' v3
      of the triangle's corners, with the folded draws s', t'. */
  lemma {:induction false} TriangleSampleIsConvexCombination(v1: Vertex, v2: Vertex, v3: Vertex, s: real, t: real)
    requires IsDraw(s) && IsDraw(t)
    ensures var st := Fold(s, t);
      && IsConvexWeights(1.0 - st.0 - st.1, st.0, st.1)
      && RandomPointInTriangle(v1, v2, v3, s, t) == Combination(1.0 - st.0 - st.1, st.0, st.1, v1, v2, v3)
  {
    var st := Fold(s, t);
    var a, b, c := 1.0 - st.0 - st.1, st.0, st.1;
    var p := RandomPointInTriangle(v1, v2, v3, s, t);
    calc {
      p.x;
      v1.x as real + b * (v2.x as real - v1.x as real) + c * (v3.x as real - v1.x as real);
      a * v1.x as real + b * v2.x as real + c * v3.x as real;
      Weighted(a, b, c, v1.x as real, v2.x as real, v3.x as real);
    }
    calc {
      p.y;
      v1.y as real + b * (v2.y as real - v1.y as real) + c * (v3.y as real - v1.y as real);
      a * v1.y as real + b * v2.y as real + c * v3.y as real;
      Weighted(a, b, c, v1.y as real, v2.y as real, v3.y as real);
    }
  }

  lemma ProductNonNegative(a: real, b: real)
    requires a >= 0.0 && b >= 0.0
    ensures a * b >= 0.0
  {
  }

  /** A convex combination of three numbers in [lo, hi] is in [lo, hi]. */
  lemma {:induction false} ConvexCombinationBounded(a: real, b: real, c: real, x1: real, x2: real, x3: real, lo: real, hi: real)
    requires IsConvexWeights(a, b, c)
    requires lo <= x1 <= hi && lo <= x2 <= hi && lo <= x3 <= hi
    ensures lo <= Weighted(a, b, c, x1, x2, x3) <= hi
  {
    ProductNonNegative(a, x1 - lo);
    ProductNonNegative(b, x2 - lo);
    ProductNonNegative(c, x3 - lo);
    ProductNonNegative(a, hi - x1);
    ProductNonNegative(b, hi - x2);
    ProductNonNegative(c, hi - x3);
    assert a * x1 + b * x2 + c * x3 - lo == a * (x1 - lo) + b * (x2 - lo) + c * (x3 - lo);
    assert hi - (a * x1 + b * x2 + c * x3) == a * (hi - x1) + b * (hi - x2) + c * (hi - x3);
  }

  // ---------------------------------------------------------------------
  // the bounding box of a list of vertices

  function MinX(vs: seq<Vertex>): int
    requires |vs| > 0
  {
    if |vs| == 1 then vs[0].x else var m := MinX(vs[1..]); if vs[0].x < m then vs[0].x else m
  }

  function MaxX(vs: seq<Vertex>): int
    requires |vs| > 0
  {
    if |vs| == 1 then vs[0].x else var m := MaxX(vs[1..]); if vs[0].x > m then vs[0].x else m
  }

  function MinY(vs: seq<Vertex>): int
    requires |vs| > 0
  {
    if |vs| == 1 then vs[0].y else var m := MinY(vs[1..]); if vs[0].y < m then vs[0].y else m
  }

  function MaxY(vs: seq<Vertex>): int
    requires |vs| > 0
  {
    if |vs| == 1 then vs[0].y else var m := MaxY(vs[1..]); if vs[0].y > m then vs[0].y else m
  }

  /** Every vertex lies in the bounding box of the list. */
  lemma {:induction false} VertexInBounds(vs: seq<Vertex>, i: nat)
    requires i < |vs|
    ensures MinX(vs) <= vs[i].x <= MaxX(vs) && MinY(vs) <= vs[i].y <= MaxY(vs)
    decreases |vs|
  {
    if i > 0 {
      VertexInBounds(vs[1..], i - 1);
    }
  }

  predicate InBoundingBox(p: Point, vs: seq<Vertex>)
    requires |vs| > 0
  {
    MinX(vs) as real <= p.x <= MaxX(vs) as real && MinY(vs) as real <= p.y <= MaxY(vs) as real
  }

  /** A point sampled from a triangle whose corners all lie in the bounding
      box of `vs` lies in that box. */
  lemma {:induction false} TriangleSampleInBox(vs: seq<Vertex>, i: nat, j: nat, k: nat, s: real, t: real)
    requires i < |vs| && j < |vs| && k < |vs|
    requires IsDraw(s) && IsDraw(t)
    ensures InBoundingBox(RandomPointInTriangle(vs[i], vs[j], vs[k], s, t), vs)
  {
    var st := Fold(s, t);
    var a, b, c := 1.0 - st.0 - st.1, st.0, st.1;
    var p := RandomPointInTriangle(vs[i], vs[j], vs[k], s, t);
    TriangleSampleIsConvexCombination(vs[i], vs[j], vs[k], s, t);
    assert p == Combination(a, b, c, vs[i], vs[j], vs[k]);
    VertexInBounds(vs, i);
    VertexInBounds(vs, j);
    VertexInBounds(vs, k);
    var x1, x2, x3 := vs[i].x as real, vs[j].x as real, vs[k].x as real;
    var y1, y2, y3 := vs[i].y as real, vs[j].y as real, vs[k].y as real;
    ConvexCombinationBounded(a, b, c, x1, x2, x3, MinX(vs) as real, MaxX(vs) as real);
    ConvexCombinationBounded(a, b, c, y1, y2, y3, MinY(vs) as real, MaxY(vs) as real);
  }

  // ---------------------------------------------------------------------
  // the quadrilateral

  /** `_get_rand_point(clickbox)` with the coin draw and the two triangle
      draws: triangle (v0, v1, v2) when the coin is below 0.5, else
      (v0, v2, v3). */
  function GetRandPoint(box: seq<Vertex>, coin: real, s: real, t: real): Point
    requires |box| == 4
    requires IsDraw(s) && IsDraw(t)
  {
    if coin < 0.5 then RandomPointInTriangle(box[0], box[1], box[2], s, t)
    else RandomPointInTriangle(box[0], box[2], box[3], s, t)
  }

  /** The sample is a convex combination of the corners of the triangle the
      coin picks, and so lies in the bounding box of the four corners. */
  lemma {:induction false} RandPointInClickBox(box: seq<Vertex>, coin: real, s: real, t: real)
    requires |box| == 4
    requires IsDraw(s) && IsDraw(t)
    ensures var st := Fold(s, t);
      var p := GetRandPoint(box, coin, s, t);
      && IsConvexWeights(1.0 - st.0 - st.1, st.0, st.1)
      && (coin < 0.5 ==> p == Combination(1.0 - st.0 - st.1, st.0, st.1, box[0], box[1], box[2]))
      && (coin >= 0.5 ==> p == Combination(1.0 - st.0 - st.1, st.0, st.1, box[0], box[2], box[3]))
      && InBoundingBox(p, box)
  {
    if coin < 0.5 {
      TriangleSampleIsConvexCombination(box[0], box[1], box[2], s, t);
      TriangleSampleInBox(box, 0, 1, 2, s, t);
    } else {
      TriangleSampleIsConvexCombination(box[0], box[2], box[3], s, t);
      TriangleSampleInBox(box, 0, 2, 3, s, t);
    }
  }
}
