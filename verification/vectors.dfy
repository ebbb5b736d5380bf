/** Three-component vectors. Reals stand in for numpy's float32 and
    Eigen's double values; only exact addition, subtraction, scaling, dot
    and cross products are interpreted. */
module Vectors {

  datatype Vec3 = Vec3(x: real, y: real, z: real)

  const Zero := Vec3(0.0, 0.0, 0.0)

  function Add(a: Vec3, b: Vec3): Vec3 {
    Vec3(a.x + b.x, a.y + b.y, a.z + b.z)
  }

  function Scale(k: real, a: Vec3): Vec3 {
    Vec3(k * a.x, k * a.y, k * a.z)
  }

  function Sub(a: Vec3, b: Vec3): Vec3 {
    Vec3(a.x - b.x, a.y - b.y, a.z - b.z)
  }

  function Dot(a: Vec3, b: Vec3): real {
    a.x * b.x + a.y * b.y + a.z * b.z
  }

  /** Eigen's `a.cross(b)`. */
  function Cross(a: Vec3, b: Vec3): Vec3 {
    Vec3(a.y * b.z - a.z * b.y, a.z * b.x - a.x * b.z, a.x * b.y - a.y * b.x)
  }

  /** The normal of the triangle p, q, s as the Voronoi pass computes it:
      `(q - p).cross(s - q)`. It is orthogonal to all three edges, and it
      does not depend on which corner the triangle is walked from. */
  function FaceNormal(p: Vec3, q: Vec3, s: Vec3): (r: Vec3)
    ensures Dot(r, Sub(q, p)) == 0.0 && Dot(r, Sub(s, q)) == 0.0 && Dot(r, Sub(p, s)) == 0.0
    ensures r == Cross(Sub(s, q), Sub(p, s)) && r == Cross(Sub(p, s), Sub(q, p))
  {
    CrossRotates(p, q, s);
    CrossRotates(q, s, p);
    CrossOrthogonal(Sub(q, p), Sub(s, q));
    CrossOrthogonal(Sub(s, q), Sub(p, s));
    Cross(Sub(q, p), Sub(s, q))
  }

  /** The cross product is orthogonal to both of its factors. */
  lemma CrossOrthogonal(a: Vec3, b: Vec3)
    ensures Dot(Cross(a, b), a) == 0.0 && Dot(Cross(a, b), b) == 0.0
  {
    assert (a.y * b.z - a.z * b.y) * a.x == a.x * a.y * b.z - a.x * a.z * b.y;
    assert (a.z * b.x - a.x * b.z) * a.y == a.y * a.z * b.x - a.x * a.y * b.z;
    assert (a.x * b.y - a.y * b.x) * a.z == a.x * a.z * b.y - a.y * a.z * b.x;
    assert (a.y * b.z - a.z * b.y) * b.x == a.y * b.x * b.z - a.z * b.x * b.y;
    assert (a.z * b.x - a.x * b.z) * b.y == a.z * b.x * b.y - a.x * b.y * b.z;
    assert (a.x * b.y - a.y * b.x) * b.z == a.x * b.y * b.z - a.y * b.x * b.z;
  }

  /** The edge cross product of a triangle does not depend on the corner
      it starts from. */
  lemma CrossRotates(p: Vec3, q: Vec3, s: Vec3)
    ensures Cross(Sub(q, p), Sub(s, q)) == Cross(Sub(s, q), Sub(p, s))
  {
    RotatedTerm(p.y, p.z, q.y, q.z, s.y, s.z);
    RotatedTerm(p.z, p.x, q.z, q.x, s.z, s.x);
    RotatedTerm(p.x, p.y, q.x, q.y, s.x, s.y);
  }

  /** One component of CrossRotates. */
  lemma RotatedTerm(p1: real, p2: real, q1: real, q2: real, s1: real, s2: real)
    ensures (q1 - p1) * (s2 - q2) - (q2 - p2) * (s1 - q1) == (s1 - q1) * (p2 - s2) - (s2 - q2) * (p1 - s1)
  {
    assert (q1 - p1) * (s2 - q2) == q1 * s2 - q1 * q2 - p1 * s2 + p1 * q2;
    assert (q2 - p2) * (s1 - q1) == q2 * s1 - q1 * q2 - p2 * s1 + p2 * q1;
    assert (s1 - q1) * (p2 - s2) == s1 * p2 - s1 * s2 - q1 * p2 + q1 * s2;
    assert (s2 - q2) * (p1 - s1) == s2 * p1 - s1 * s2 - q2 * p1 + q2 * s1;
  }

  /** A column of points indexed by position: fresh random or arranged
      points, the i-th one for index i. */
  type Source = nat -> Vec3

  /** Normalisation onto the unit sphere (a square root, left uninterpreted). */
  type Normalizer = Vec3 -> Vec3
}
