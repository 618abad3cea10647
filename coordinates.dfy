/** The coordinate helpers of latticedb.py: the closeness test used to
    de-duplicate k-points, conversion between reduced and cartesian
    coordinates, the reciprocal lattice, the matrix inverse used for the
    reciprocal symmetries, and the folding of reduced coordinates into the
    unit cell. */
module Coordinates {
  import opened Vectors
  import opened Errors

  /** The module-level tolerance `atol`, used both as relative and absolute
      tolerance of `np.allclose` and as the shift applied before folding. */
  const Atol: real := 0.000001

  function Abs(x: real): real {
    if x < 0.0 then -x else x
  }

  /** One component of `np.allclose(a, b, rtol=atol, atol=atol)`:
      |a - b| <= atol + rtol * |b|. The tolerance scales with the SECOND
      argument only, so the test is not symmetric. */
  predicate CloseTo(a: real, b: real) {
    Abs(a - b) <= Atol + Atol * Abs(b)
  }

  /** `np.allclose(a, b, rtol=atol, atol=atol)` on two 3-vectors. */
  predicate AllClose(a: Vec3, b: Vec3) {
    CloseTo(a.x, b.x) && CloseTo(a.y, b.y) && CloseTo(a.z, b.z)
  }

  /** Every vector is close to itself. */
  lemma AllCloseReflexive(v: Vec3)
    ensures AllClose(v, v)
  {
  }

  /** A witness on one concrete pair, not a general property: `np.allclose`
      is not symmetric, since 0 is close to a point just above atol, but that
      point is not close to 0. */
  lemma AllCloseNotSymmetric()
    ensures AllClose(Zero, Vec3(0.0000010000005, 0.0, 0.0))
    ensures !AllClose(Vec3(0.0000010000005, 0.0, 0.0), Zero)
  {
  }

  /** `vec_in_list(veca, vec_list)`: whether any entry of the list is close to
      the vector (the `.any()` of the per-entry allclose tests). */
  function VecInList(v: Vec3, list: seq<Vec3>): (found: bool)
    ensures found <==> exists i :: 0 <= i < |list| && AllClose(v, list[i])
    ensures list == [] ==> !found
  {
    if list == [] then false
    else AllClose(v, list[0]) || VecInList(v, list[1..])
  }

  /** `red_car(red, lat)`: each reduced vector r becomes
      `r[0]*lat[0] + r[1]*lat[1] + r[2]*lat[2]`, in order. */
  function RedCar(red: seq<Vec3>, lat: Mat3): (car: seq<Vec3>)
    ensures |car| == |red|
    ensures forall i :: 0 <= i < |red| ==> car[i] == Combine(red[i], lat)
  {
    if red == [] then []
    else [Combine(red[0], lat)] + RedCar(red[1..], lat)
  }

  /** `np.linalg.solve(np.array(lat).T, coord)`: the reduced coordinates x of
      a cartesian vector, those with `lat.T x == coord`. LinAlgError on a
      singular basis. */
  function Solve(lat: Mat3, coord: Vec3): (r: Result<Vec3>)
    ensures r.Err? <==> Det(lat) == 0.0
    ensures r.Err? ==> r.error == SingularBasis
    ensures r.Ok? ==> Combine(r.value, lat) == coord
  {
    var d := Det(lat);
    if d == 0.0 then Err(SingularBasis)
    else
      var w := Vec3(Dot(coord, Cross(lat.r1, lat.r2)), Dot(coord, Cross(lat.r2, lat.r0)),
                    Dot(coord, Cross(lat.r0, lat.r1)));
      CofactorExpansion(lat, coord);
      CombineScale(1.0 / d, w, lat);
      Ok(Scale(1.0 / d, w))
  }

  /** Combination is linear in the coefficients. */
  lemma CombineScale(k: real, w: Vec3, m: Mat3)
    ensures Combine(Scale(k, w), m) == Scale(k, Combine(w, m))
  {
    var c := Combine(w, m);
    assert c.x == w.x * m.r0.x + w.y * m.r1.x + w.z * m.r2.x;
    assert c.y == w.x * m.r0.y + w.y * m.r1.y + w.z * m.r2.y;
    assert c.z == w.x * m.r0.z + w.y * m.r1.z + w.z * m.r2.z;
    Distribute(k, w.x, w.y, w.z, m.r0.x, m.r1.x, m.r2.x, c.x);
    Distribute(k, w.x, w.y, w.z, m.r0.y, m.r1.y, m.r2.y, c.y);
    Distribute(k, w.x, w.y, w.z, m.r0.z, m.r1.z, m.r2.z, c.z);
    var sw := Scale(k, w);
    assert sw.x == k * w.x && sw.y == k * w.y && sw.z == k * w.z;
    CombineEquals(sw.x, sw.y, sw.z, m, k, c);
    assert Vec3(sw.x, sw.y, sw.z) == sw;
  }

  lemma Distribute(k: real, a: real, b: real, c: real, x: real, y: real, z: real, s: real)
    requires s == a * x + b * y + c * z
    ensures (k * a) * x + (k * b) * y + (k * c) * z == k * s
  {
  }

  /** A basis with non-zero determinant gives every point exactly one set of
      reduced coordinates: solving for a combination returns its coefficients. */
  lemma SolveCombine(lat: Mat3, red: Vec3)
    requires Det(lat) != 0.0
    ensures Solve(lat, Combine(red, lat)) == Ok(red)
  {
    var d := Det(lat);
    var c := Combine(red, lat);
    TripleProducts(lat);
    DotCombine(red, lat, Cross(lat.r1, lat.r2));
    DotCombine(red, lat, Cross(lat.r2, lat.r0));
    DotCombine(red, lat, Cross(lat.r0, lat.r1));
    assert Dot(c, Cross(lat.r1, lat.r2)) == red.x * d;
    assert Dot(c, Cross(lat.r2, lat.r0)) == red.y * d;
    assert Dot(c, Cross(lat.r0, lat.r1)) == red.z * d;
    Cancel(red.x, d, Dot(c, Cross(lat.r1, lat.r2)));
    Cancel(red.y, d, Dot(c, Cross(lat.r2, lat.r0)));
    Cancel(red.z, d, Dot(c, Cross(lat.r0, lat.r1)));
    var w := Vec3(Dot(c, Cross(lat.r1, lat.r2)), Dot(c, Cross(lat.r2, lat.r0)), Dot(c, Cross(lat.r0, lat.r1)));
    assert Solve(lat, c) == Ok(Scale(1.0 / d, w));
    assert Scale(1.0 / d, w) == red;
  }

  /** `car_red(car, lat)`: the reduced coordinates of every vector, in order.
      Python's `map` calls solve only for the entries that exist, so an empty
      list converts even against a singular basis. */
  function CarRed(car: seq<Vec3>, lat: Mat3): (r: Result<seq<Vec3>>)
    ensures r.Err? <==> |car| > 0 && Det(lat) == 0.0
    ensures r.Err? ==> r.error == SingularBasis
    ensures r.Ok? ==> |r.value| == |car|
    ensures r.Ok? ==> forall i :: 0 <= i < |car| ==> Combine(r.value[i], lat) == car[i]
  {
    if car == [] then Ok([])
    else
      match Solve(lat, car[0])
      case Err(e) => Err(e)
      case Ok(x) =>
        match CarRed(car[1..], lat)
        case Err(e) => Err(e)
        case Ok(rest) => Ok([x] + rest)
  }

  /** Converting to cartesian and back gives the reduced coordinates again. */
  lemma {:induction false} CarRedOfRedCar(red: seq<Vec3>, lat: Mat3)
    requires Det(lat) != 0.0
    ensures CarRed(RedCar(red, lat), lat) == Ok(red)
  {
    if red != [] {
      SolveCombine(lat, red[0]);
      CarRedOfRedCar(red[1..], lat);
      assert RedCar(red, lat)[1..] == RedCar(red[1..], lat);
      assert [red[0]] + red[1..] == red;
    }
  }

  /** Converting to reduced coordinates and back gives the cartesian vectors again. */
  lemma RedCarOfCarRed(car: seq<Vec3>, lat: Mat3)
    requires Det(lat) != 0.0
    ensures CarRed(car, lat).Ok?
    ensures RedCar(CarRed(car, lat).value, lat) == car
  {
  }

  /** Row i of a and row j of b pair to 1 when i == j and to 0 otherwise. */
  predicate Dual(a: Mat3, b: Mat3) {
    forall i, j :: 0 <= i < 3 && 0 <= j < 3 ==>
      Dot(Row(a, i), Row(b, j)) == if i == j then 1.0 else 0.0
  }

  /** `rec_lat(lat)`: `b1 = cross(a2,a3)/v`, `b2 = cross(a3,a1)/v`,
      `b3 = cross(a1,a2)/v` with `v = dot(a1, cross(a2,a3))`. numpy divides a
      zero volume into infinities; here that case is DegenerateLattice. */
  function RecLat(lat: Mat3): (r: Result<Mat3>)
    ensures r.Err? <==> Det(lat) == 0.0
    ensures r.Err? ==> r.error == DegenerateLattice
    ensures r.Ok? ==> Dual(lat, r.value)
  {
    var a1, a2, a3 := lat.r0, lat.r1, lat.r2;
    var v := Dot(a1, Cross(a2, a3));
    if v == 0.0 then Err(DegenerateLattice)
    else
      var b := Mat3(Scale(1.0 / v, Cross(a2, a3)), Scale(1.0 / v, Cross(a3, a1)), Scale(1.0 / v, Cross(a1, a2)));
      RecLatDual(lat, v, b);
      Ok(b)
  }

  lemma RecLatDual(lat: Mat3, v: real, b: Mat3)
    requires v == Det(lat) && v != 0.0
    requires b == Mat3(Scale(1.0 / v, Cross(lat.r1, lat.r2)), Scale(1.0 / v, Cross(lat.r2, lat.r0)),
                       Scale(1.0 / v, Cross(lat.r0, lat.r1)))
    ensures Dual(lat, b)
  {
    TripleProducts(lat);
    forall i, j | 0 <= i < 3 && 0 <= j < 3
      ensures Dot(Row(lat, i), Row(b, j)) == if i == j then 1.0 else 0.0
    {
      var c := if j == 0 then Cross(lat.r1, lat.r2) else if j == 1 then Cross(lat.r2, lat.r0) else Cross(lat.r0, lat.r1);
      assert Row(b, j) == Scale(1.0 / v, c);
      DotScale(Row(lat, i), 1.0 / v, c);
    }
  }

  /** The reciprocal lattice spans the inverse volume: its determinant is
      `1/v`, so it is never singular and car_red against it solves every
      vector. */
  lemma RecLatVolume(lat: Mat3)
    ensures RecLat(lat).Ok? ==> Det(RecLat(lat).value) * Det(lat) == 1.0
  {
    if RecLat(lat).Ok? {
      var v := Det(lat);
      var k := 1.0 / v;
      var c := Cofactors(lat);
      assert RecLat(lat).value == ScaleMat(k, c);
      CofactorVolume(lat);
      ScaledVolume(k, c);
      InverseCube(k, v, Det(c), Det(ScaleMat(k, c)));
    }
  }

  lemma InverseCube(k: real, v: real, c: real, d: real)
    requires v != 0.0 && k == 1.0 / v && c == v * v && d == k * k * k * c
    ensures d * v == 1.0
  {
  }

  /** `np.linalg.inv(m)`: the two-sided inverse, LinAlgError when m is singular. */
  function Inverse(m: Mat3): (r: Result<Mat3>)
    ensures r.Err? <==> Det(m) == 0.0
    ensures r.Ok? ==> MatMul(m, r.value) == Identity && MatMul(r.value, m) == Identity
  {
    var d := Det(m);
    if d == 0.0 then Err(SingularBasis)
    else
      var inv := Transpose(ScaleMat(1.0 / d, Cofactors(m)));
      InverseProducts(m, d, inv);
      Ok(inv)
  }

  lemma InverseProducts(m: Mat3, d: real, inv: Mat3)
    requires d == Det(m) && d != 0.0
    requires inv == Transpose(ScaleMat(1.0 / d, Cofactors(m)))
    ensures MatMul(m, inv) == Identity && MatMul(inv, m) == Identity
  {
    forall i, j | 0 <= i < 3 && 0 <= j < 3
      ensures Dot(Row(m, i), Col(inv, j)) == if i == j then 1.0 else 0.0
    {
      RightInverseEntry(m, d, inv, i, j);
    }
    forall i, j | 0 <= i < 3 && 0 <= j < 3
      ensures Dot(Row(inv, i), Col(m, j)) == if i == j then 1.0 else 0.0
    {
      LeftInverseEntry(m, d, inv, i, j);
    }
    IdentityByEntries(m, inv);
    IdentityByEntries(inv, m);
  }

  lemma RightInverseEntry(m: Mat3, d: real, inv: Mat3, i: nat, j: nat)
    requires d == Det(m) && d != 0.0
    requires inv == Transpose(ScaleMat(1.0 / d, Cofactors(m)))
    requires i < 3 && j < 3
    ensures Dot(Row(m, i), Col(inv, j)) == if i == j then 1.0 else 0.0
  {
    var c := Cofactors(m);
    TripleProducts(m);
    assert Col(inv, j) == Scale(1.0 / d, Row(c, j));
    DotScale(Row(m, i), 1.0 / d, Row(c, j));
  }

  lemma LeftInverseEntry(m: Mat3, d: real, inv: Mat3, i: nat, j: nat)
    requires d == Det(m) && d != 0.0
    requires inv == Transpose(ScaleMat(1.0 / d, Cofactors(m)))
    requires i < 3 && j < 3
    ensures Dot(Row(inv, i), Col(m, j)) == if i == j then 1.0 else 0.0
  {
    var c := Cofactors(m);
    var t := Dot(Col(c, i), Col(m, j));
    assert t == if i == j then d else 0.0 by {
      var e := if i == 0 then Vec3(1.0, 0.0, 0.0) else if i == 1 then Vec3(0.0, 1.0, 0.0) else Vec3(0.0, 0.0, 1.0);
      CofactorExpansion(m, e);
      assert Vec3(Dot(e, c.r0), Dot(e, c.r1), Dot(e, c.r2)) == Col(c, i);
      CombineAt(Col(c, i), m, j);
    }
    assert Dot(Row(inv, i), Col(m, j)) == 1.0 / d * t by {
      TransposeScaledRow(1.0 / d, c, i);
      DotScale(Col(m, j), 1.0 / d, Col(c, i));
      DotCommutes(Scale(1.0 / d, Col(c, i)), Col(m, j));
    }
    if i == j {
      Cancel(1.0, d, t);
    }
  }

  lemma DotCommutes(a: Vec3, b: Vec3)
    ensures Dot(a, b) == Dot(b, a)
  {
  }

  /** Row i of the transpose of k*c is k times column i of c. */
  lemma TransposeScaledRow(k: real, c: Mat3, i: nat)
    requires i < 3
    ensures Row(Transpose(ScaleMat(k, c)), i) == Scale(k, Col(c, i))
  {
  }

  lemma CombineAt(x: Vec3, m: Mat3, j: nat)
    requires j < 3
    ensures At(Combine(x, m), j) == Dot(x, Col(m, j))
  {
    if j == 0 {
    } else if j == 1 {
    } else {
    }
  }

  /** A product whose entries are those of the identity is the identity. */
  lemma IdentityByEntries(a: Mat3, b: Mat3)
    requires forall i, j :: 0 <= i < 3 && 0 <= j < 3 ==>
      Dot(Row(a, i), Col(b, j)) == if i == j then 1.0 else 0.0
    ensures MatMul(a, b) == Identity
  {
    assert Dot(a.r0, Col(b, 0)) == 1.0 && Dot(a.r0, Col(b, 1)) == 0.0 && Dot(a.r0, Col(b, 2)) == 0.0 by {
      assert Row(a, 0) == a.r0;
    }
    assert Dot(a.r1, Col(b, 0)) == 0.0 && Dot(a.r1, Col(b, 1)) == 1.0 && Dot(a.r1, Col(b, 2)) == 0.0 by {
      assert Row(a, 1) == a.r1;
    }
    assert Dot(a.r2, Col(b, 0)) == 0.0 && Dot(a.r2, Col(b, 1)) == 0.0 && Dot(a.r2, Col(b, 2)) == 1.0 by {
      assert Row(a, 2) == a.r2;
    }
  }

  /** Python's `x % 1` on a float: the representative of x in [0, 1). */
  function Frac(x: real): (r: real)
    ensures 0.0 <= r < 1.0
    ensures (x - r).Floor as real == x - r
  {
    x - x.Floor as real
  }

  /** `(k_red + atol) % 1`: reduced coordinates shifted by atol and folded
      into the unit cell [0, 1) on each axis. */
  function Fold(red: Vec3): (f: Vec3)
    ensures 0.0 <= f.x < 1.0 && 0.0 <= f.y < 1.0 && 0.0 <= f.z < 1.0
    ensures (red.x + Atol - f.x).Floor as real == red.x + Atol - f.x
    ensures (red.y + Atol - f.y).Floor as real == red.y + Atol - f.y
    ensures (red.z + Atol - f.z).Floor as real == red.z + Atol - f.z
  {
    Vec3(Frac(red.x + Atol), Frac(red.y + Atol), Frac(red.z + Atol))
  }
}
