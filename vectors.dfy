/** Exact 3-vectors and 3x3 matrices over the reals, the numpy arrays the
    lattice code works with. A matrix is stored by rows, as numpy indexes
    `lat[0]`, `lat[1]`, `lat[2]`. */
module Vectors {

  datatype Vec3 = Vec3(x: real, y: real, z: real)

  /** Rows r0, r1, r2. */
  datatype Mat3 = Mat3(r0: Vec3, r1: Vec3, r2: Vec3)

  const Zero: Vec3 := Vec3(0.0, 0.0, 0.0)
  const Identity: Mat3 := Mat3(Vec3(1.0, 0.0, 0.0), Vec3(0.0, 1.0, 0.0), Vec3(0.0, 0.0, 1.0))

  /** Component i of v (numpy `v[i]`). */
  function At(v: Vec3, i: nat): real
    requires i < 3
  {
    if i == 0 then v.x else if i == 1 then v.y else v.z
  }

  /** Row i of m (numpy `m[i]`). */
  function Row(m: Mat3, i: nat): Vec3
    requires i < 3
  {
    if i == 0 then m.r0 else if i == 1 then m.r1 else m.r2
  }

  function Add(a: Vec3, b: Vec3): Vec3 {
    Vec3(a.x + b.x, a.y + b.y, a.z + b.z)
  }

  function Scale(c: real, a: Vec3): Vec3 {
    Vec3(c * a.x, c * a.y, c * a.z)
  }

  function Neg(a: Vec3): Vec3 {
    Vec3(-a.x, -a.y, -a.z)
  }

  /** numpy `np.dot` of two vectors. */
  function Dot(a: Vec3, b: Vec3): real {
    a.x * b.x + a.y * b.y + a.z * b.z
  }

  /** numpy `np.cross`. */
  function Cross(a: Vec3, b: Vec3): Vec3 {
    Vec3(a.y * b.z - a.z * b.y, a.z * b.x - a.x * b.z, a.x * b.y - a.y * b.x)
  }

  /** numpy `np.dot(m, v)`: each row of m dotted with v. */
  function MatVec(m: Mat3, v: Vec3): Vec3 {
    Vec3(Dot(m.r0, v), Dot(m.r1, v), Dot(m.r2, v))
  }

  function Col(m: Mat3, j: nat): Vec3
    requires j < 3
  {
    Vec3(At(m.r0, j), At(m.r1, j), At(m.r2, j))
  }

  function Transpose(m: Mat3): Mat3 {
    Mat3(Col(m, 0), Col(m, 1), Col(m, 2))
  }

  function MatMul(a: Mat3, b: Mat3): Mat3 {
    Mat3(Vec3(Dot(a.r0, Col(b, 0)), Dot(a.r0, Col(b, 1)), Dot(a.r0, Col(b, 2))),
         Vec3(Dot(a.r1, Col(b, 0)), Dot(a.r1, Col(b, 1)), Dot(a.r1, Col(b, 2))),
         Vec3(Dot(a.r2, Col(b, 0)), Dot(a.r2, Col(b, 1)), Dot(a.r2, Col(b, 2))))
  }

  /** `r[0]*m[0] + r[1]*m[1] + r[2]*m[2]`: the point with coordinates r in the basis m. */
  function Combine(r: Vec3, m: Mat3): Vec3 {
    Add(Add(Scale(r.x, m.r0), Scale(r.y, m.r1)), Scale(r.z, m.r2))
  }

  /** Determinant of the matrix with rows a1, a2, a3: the scalar triple product
      `dot(a1, cross(a2, a3))`, the cell volume `v` of rec_lat. */
  function Det(m: Mat3): real {
    Dot(m.r0, Cross(m.r1, m.r2))
  }

  /** Rows of the cofactor matrix: cross(a2,a3), cross(a3,a1), cross(a1,a2). */
  function Cofactors(m: Mat3): Mat3 {
    Mat3(Cross(m.r1, m.r2), Cross(m.r2, m.r0), Cross(m.r0, m.r1))
  }

  function ScaleMat(c: real, m: Mat3): Mat3 {
    Mat3(Scale(c, m.r0), Scale(c, m.r1), Scale(c, m.r2))
  }

  /** The scalar triple products of the rows a, b, c written out on their
      nine entries, with d the determinant. */
  lemma TripleScalars(ax: real, ay: real, az: real, bx: real, bY: real, bz: real,
                      cx: real, cy: real, cz: real, d: real)
    requires d == ax * (bY * cz - bz * cy) + ay * (bz * cx - bx * cz) + az * (bx * cy - bY * cx)
    ensures bx * (cy * az - cz * ay) + bY * (cz * ax - cx * az) + bz * (cx * ay - cy * ax) == d
    ensures cx * (ay * bz - az * bY) + cy * (az * bx - ax * bz) + cz * (ax * bY - ay * bx) == d
    ensures ax * (cy * az - cz * ay) + ay * (cz * ax - cx * az) + az * (cx * ay - cy * ax) == 0.0
    ensures ax * (ay * bz - az * bY) + ay * (az * bx - ax * bz) + az * (ax * bY - ay * bx) == 0.0
    ensures bx * (bY * cz - bz * cy) + bY * (bz * cx - bx * cz) + bz * (bx * cy - bY * cx) == 0.0
    ensures bx * (ay * bz - az * bY) + bY * (az * bx - ax * bz) + bz * (ax * bY - ay * bx) == 0.0
    ensures cx * (bY * cz - bz * cy) + cy * (bz * cx - bx * cz) + cz * (bx * cy - bY * cx) == 0.0
    ensures cx * (cy * az - cz * ay) + cy * (cz * ax - cx * az) + cz * (cx * ay - cy * ax) == 0.0
  {
  }

  /** Row i of m against cofactor row j is det(m) on the diagonal and 0 off it. */
  lemma TripleProducts(m: Mat3)
    ensures Dot(m.r0, Cross(m.r1, m.r2)) == Det(m)
    ensures Dot(m.r1, Cross(m.r2, m.r0)) == Det(m)
    ensures Dot(m.r2, Cross(m.r0, m.r1)) == Det(m)
    ensures Dot(m.r0, Cross(m.r2, m.r0)) == 0.0 && Dot(m.r0, Cross(m.r0, m.r1)) == 0.0
    ensures Dot(m.r1, Cross(m.r1, m.r2)) == 0.0 && Dot(m.r1, Cross(m.r0, m.r1)) == 0.0
    ensures Dot(m.r2, Cross(m.r1, m.r2)) == 0.0 && Dot(m.r2, Cross(m.r2, m.r0)) == 0.0
  {
    var a, b, c := m.r0, m.r1, m.r2;
    var d := a.x * (b.y * c.z - b.z * c.y) + a.y * (b.z * c.x - b.x * c.z) + a.z * (b.x * c.y - b.y * c.x);
    assert Det(m) == d;
    TripleScalars(a.x, a.y, a.z, b.x, b.y, b.z, c.x, c.y, c.z, d);
    TripleDot(b, c, a);
    TripleDot(c, a, b);
    TripleDot(a, c, a);
    TripleDot(a, a, b);
    TripleDot(b, b, c);
    TripleDot(b, a, b);
    TripleDot(c, b, c);
    TripleDot(c, c, a);
  }

  /** The triple product written out on components. */
  lemma TripleDot(u: Vec3, v: Vec3, w: Vec3)
    ensures Dot(u, Cross(v, w)) == u.x * (v.y * w.z - v.z * w.y) + u.y * (v.z * w.x - v.x * w.z) + u.z * (v.x * w.y - v.y * w.x)
  {
  }

  /** Cramer's rule written out on the nine entries of the matrix (rows a, b, c)
      and the three components of v: p, q, r are v against the cofactor rows
      and d is the determinant. */
  lemma CramerScalars(ax: real, ay: real, az: real, bx: real, bY: real, bz: real,
                      cx: real, cy: real, cz: real, vx: real, vy: real, vz: real,
                      p: real, q: real, r: real, d: real)
    requires p == vx * (bY * cz - bz * cy) + vy * (bz * cx - bx * cz) + vz * (bx * cy - bY * cx)
    requires q == vx * (cy * az - cz * ay) + vy * (cz * ax - cx * az) + vz * (cx * ay - cy * ax)
    requires r == vx * (ay * bz - az * bY) + vy * (az * bx - ax * bz) + vz * (ax * bY - ay * bx)
    requires d == ax * (bY * cz - bz * cy) + ay * (bz * cx - bx * cz) + az * (bx * cy - bY * cx)
    ensures p * ax + q * bx + r * cx == d * vx
    ensures p * ay + q * bY + r * cy == d * vy
    ensures p * az + q * bz + r * cz == d * vz
  {
  }

  /** Every vector is the combination of the rows of m with the coefficients
      `dot(v, cofactor row)`, scaled by det(m) (Cramer's rule). */
  lemma CofactorExpansion(m: Mat3, v: Vec3)
    ensures Combine(Vec3(Dot(v, Cross(m.r1, m.r2)), Dot(v, Cross(m.r2, m.r0)), Dot(v, Cross(m.r0, m.r1))), m)
            == Scale(Det(m), v)
  {
    var p, q, r, d := Dot(v, Cross(m.r1, m.r2)), Dot(v, Cross(m.r2, m.r0)), Dot(v, Cross(m.r0, m.r1)), Det(m);
    TripleDot(v, m.r1, m.r2);
    TripleDot(v, m.r2, m.r0);
    TripleDot(v, m.r0, m.r1);
    TripleDot(m.r0, m.r1, m.r2);
    CramerScalars(m.r0.x, m.r0.y, m.r0.z, m.r1.x, m.r1.y, m.r1.z, m.r2.x, m.r2.y, m.r2.z, v.x, v.y, v.z, p, q, r, d);
    CombineEquals(p, q, r, m, d, v);
  }

  /** A combination whose components match those of d·v is d·v. */
  lemma CombineEquals(p: real, q: real, r: real, m: Mat3, d: real, v: Vec3)
    requires p * m.r0.x + q * m.r1.x + r * m.r2.x == d * v.x
    requires p * m.r0.y + q * m.r1.y + r * m.r2.y == d * v.y
    requires p * m.r0.z + q * m.r1.z + r * m.r2.z == d * v.z
    ensures Combine(Vec3(p, q, r), m) == Scale(d, v)
  {
  }

  /** The components of a cross product. */
  lemma CrossEntries(a: Vec3, b: Vec3)
    ensures Cross(a, b).x == a.y * b.z - a.z * b.y
    ensures Cross(a, b).y == a.z * b.x - a.x * b.z
    ensures Cross(a, b).z == a.x * b.y - a.y * b.x
  {
  }

  /** `(c × a) × (a × b) = (a · (b × c)) a` written out on the nine entries,
      with d the triple product, u = c × a and w = a × b. */
  lemma CrossCrossScalars(ax: real, ay: real, az: real, bx: real, bY: real, bz: real,
                          cx: real, cy: real, cz: real, d: real,
                          ux: real, uy: real, uz: real, wx: real, wy: real, wz: real)
    requires d == ax * (bY * cz - bz * cy) + ay * (bz * cx - bx * cz) + az * (bx * cy - bY * cx)
    requires ux == cy * az - cz * ay && uy == cz * ax - cx * az && uz == cx * ay - cy * ax
    requires wx == ay * bz - az * bY && wy == az * bx - ax * bz && wz == ax * bY - ay * bx
    ensures uy * wz - uz * wy == d * ax
    ensures uz * wx - ux * wz == d * ay
    ensures ux * wy - uy * wx == d * az
  {
  }

  /** The triple product of the cofactor rows t, u, w of rows a, b, c is the
      square of the triple product d of a, b, c. */
  lemma CofactorScalars(ax: real, ay: real, az: real, bx: real, bY: real, bz: real,
                        cx: real, cy: real, cz: real, d: real,
                        tx: real, ty: real, tz: real, ux: real, uy: real, uz: real, wx: real, wy: real, wz: real)
    requires d == ax * (bY * cz - bz * cy) + ay * (bz * cx - bx * cz) + az * (bx * cy - bY * cx)
    requires tx == bY * cz - bz * cy && ty == bz * cx - bx * cz && tz == bx * cy - bY * cx
    requires ux == cy * az - cz * ay && uy == cz * ax - cx * az && uz == cx * ay - cy * ax
    requires wx == ay * bz - az * bY && wy == az * bx - ax * bz && wz == ax * bY - ay * bx
    ensures tx * (uy * wz - uz * wy) + ty * (uz * wx - ux * wz) + tz * (ux * wy - uy * wx) == d * d
  {
    CrossCrossScalars(ax, ay, az, bx, bY, bz, cx, cy, cz, d, ux, uy, uz, wx, wy, wz);
    assert tx * ax + ty * ay + tz * az == d;
    FactorScalars(d, ax, ay, az, tx, ty, tz, uy * wz - uz * wy, uz * wx - ux * wz, ux * wy - uy * wx);
  }

  /** A dot product against d times a, when the dot product with a itself is d. */
  lemma FactorScalars(d: real, ax: real, ay: real, az: real, tx: real, ty: real, tz: real,
                      ex: real, ey: real, ez: real)
    requires ex == d * ax && ey == d * ay && ez == d * az
    requires tx * ax + ty * ay + tz * az == d
    ensures tx * ex + ty * ey + tz * ez == d * d
  {
  }

  /** The triple product of rows each scaled by k is k³ times theirs, d. */
  lemma ScaledScalars(k: real, tx: real, ty: real, tz: real, ux: real, uy: real, uz: real,
                      wx: real, wy: real, wz: real, d: real,
                      px: real, py: real, pz: real, qx: real, qy: real, qz: real, rx: real, ry: real, rz: real)
    requires d == tx * (uy * wz - uz * wy) + ty * (uz * wx - ux * wz) + tz * (ux * wy - uy * wx)
    requires px == k * tx && py == k * ty && pz == k * tz
    requires qx == k * ux && qy == k * uy && qz == k * uz
    requires rx == k * wx && ry == k * wy && rz == k * wz
    ensures px * (qy * rz - qz * ry) + py * (qz * rx - qx * rz) + pz * (qx * ry - qy * rx) == k * k * k * d
  {
  }

  /** The components of a scaled vector. */
  lemma ScaleEntries(k: real, a: Vec3)
    ensures Scale(k, a).x == k * a.x && Scale(k, a).y == k * a.y && Scale(k, a).z == k * a.z
  {
  }

  /** The cofactor rows span the square of the volume: `det(cof m) = (det m)²`. */
  lemma CofactorVolume(m: Mat3)
    ensures Det(Cofactors(m)) == Det(m) * Det(m)
  {
    var a, b, c := m.r0, m.r1, m.r2;
    var t, u, w := Cross(b, c), Cross(c, a), Cross(a, b);
    TripleDot(a, b, c);
    TripleDot(t, u, w);
    CrossEntries(b, c);
    CrossEntries(c, a);
    CrossEntries(a, b);
    CofactorScalars(a.x, a.y, a.z, b.x, b.y, b.z, c.x, c.y, c.z, Det(m),
                    t.x, t.y, t.z, u.x, u.y, u.z, w.x, w.y, w.z);
  }

  /** Scaling every row by k scales the determinant by k³. */
  lemma ScaledVolume(k: real, m: Mat3)
    ensures Det(ScaleMat(k, m)) == k * k * k * Det(m)
  {
    var p, q, r := Scale(k, m.r0), Scale(k, m.r1), Scale(k, m.r2);
    ScaleEntries(k, m.r0);
    ScaleEntries(k, m.r1);
    ScaleEntries(k, m.r2);
    TripleDot(m.r0, m.r1, m.r2);
    TripleDot(p, q, r);
    ScaledScalars(k, m.r0.x, m.r0.y, m.r0.z, m.r1.x, m.r1.y, m.r1.z, m.r2.x, m.r2.y, m.r2.z, Det(m),
                  p.x, p.y, p.z, q.x, q.y, q.z, r.x, r.y, r.z);
  }

  /** Dot product is linear in the coefficients of a combination. */
  lemma DotCombine(c: Vec3, m: Mat3, w: Vec3)
    ensures Dot(Combine(c, m), w) == c.x * Dot(m.r0, w) + c.y * Dot(m.r1, w) + c.z * Dot(m.r2, w)
  {
    DotAdd(Add(Scale(c.x, m.r0), Scale(c.y, m.r1)), Scale(c.z, m.r2), w);
    DotAdd(Scale(c.x, m.r0), Scale(c.y, m.r1), w);
    DotScaled(c.x, m.r0, w);
    DotScaled(c.y, m.r1, w);
    DotScaled(c.z, m.r2, w);
  }

  lemma DotAdd(u: Vec3, v: Vec3, w: Vec3)
    ensures Dot(Add(u, v), w) == Dot(u, w) + Dot(v, w)
  {
  }

  lemma DotScaled(k: real, u: Vec3, w: Vec3)
    ensures Dot(Scale(k, u), w) == k * Dot(u, w)
  {
  }

  /** The same, with the scaled vector on the right. */
  lemma DotScale(a: Vec3, k: real, w: Vec3)
    ensures Dot(a, Scale(k, w)) == k * Dot(a, w)
  {
  }

  /** Dividing by d undoes a multiplication by d. */
  lemma Cancel(x: real, d: real, p: real)
    requires d != 0.0 && p == x * d
    ensures 1.0 / d * p == x
  {
  }

  /** Multiplying by b undoes a division by b. */
  lemma DivTimes(a: real, b: real)
    requires b != 0.0
    ensures a / b * b == a
  {
  }
}
