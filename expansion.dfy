/** expandKpoints: unfolding the irreducible k-points into the full Brillouin
    zone with the symmetry operations, and the weight of every irreducible
    point. The loops are proved equal to a reference definition: Scan keeps
    the symmetry images of one k-point whose folded points are new, ListAll
    strings the orbits of all k-points together, Weights gives each orbit's
    share. Scan, ListAll and Weights work on any images, folded points and
    orbits; ImagesOf, ZonePoints and Orbits supply the ones of the lattice. */
module Expansion {
  import opened Vectors
  import opened Errors
  import opened Coordinates
  import opened Lists

  /** The result of the expansion: the fields expandKpoints sets. */
  datatype Expansion = Expansion(kpointsFull: seq<Vec3>, kpointsIndexes: seq<nat>,
                                 symmetryIndexes: seq<nat>, weights: seq<real>)

  /** What the scan of one k-point keeps: the accepted symmetry indices, the
      cartesian images `np.dot(sym, k)` and their folded reduced coordinates
      (`kpoints_full_i[nk]`). */
  datatype Orbit = Orbit(symmetries: seq<nat>, points: seq<Vec3>, folded: seq<Vec3>)

  /** The three parallel full-zone lists. */
  datatype Listing = Listing(points: seq<Vec3>, kpoints: seq<nat>, symmetries: seq<nat>)

  predicate Consistent(o: Orbit) {
    |o.symmetries| == |o.points| == |o.folded|
  }

  /** `(car_red([k], rlat)[0] + atol) % 1`: the reduced coordinates of a
      cartesian point folded into the unit cell. */
  function ZonePoint(k: Vec3, rlat: Mat3): (f: Vec3)
    requires Det(rlat) != 0.0
    ensures Combine(Solve(rlat, k).value, rlat) == k
    ensures 0.0 <= f.x < 1.0 && 0.0 <= f.y < 1.0 && 0.0 <= f.z < 1.0
    ensures var red := Solve(rlat, k).value;
            (red.x + Atol - f.x).Floor as real == red.x + Atol - f.x
            && (red.y + Atol - f.y).Floor as real == red.y + Atol - f.y
            && (red.z + Atol - f.z).Floor as real == red.z + Atol - f.z
  {
    Fold(Solve(rlat, k).value)
  }

  /** `np.dot(sym, k)` for every symmetry, in order. */
  function ImagesOf(k: Vec3, syms: seq<Mat3>): (images: seq<Vec3>)
    ensures |images| == |syms|
    ensures forall ns :: 0 <= ns < |syms| ==> images[ns] == MatVec(syms[ns], k)
  {
    seq(|syms|, ns requires 0 <= ns < |syms| => MatVec(syms[ns], k))
  }

  /** The folded reduced image of k by every symmetry, in order. */
  function ZonePoints(k: Vec3, syms: seq<Mat3>, rlat: Mat3): (zone: seq<Vec3>)
    requires Det(rlat) != 0.0
    ensures |zone| == |syms|
    ensures forall ns :: 0 <= ns < |syms| ==> zone[ns] == ZonePoint(MatVec(syms[ns], k), rlat)
  {
    seq(|syms|, ns requires 0 <= ns < |syms| => ZonePoint(MatVec(syms[ns], k), rlat))
  }

  /** The inner loop of expandKpoints over the first n symmetries, given the
      image of k by each symmetry and its folded point: an image is kept
      unless its folded point is close to one already kept. */
  function Scan(images: seq<Vec3>, zone: seq<Vec3>, n: nat): (o: Orbit)
    requires n <= |images| == |zone|
    ensures Consistent(o) && |o.symmetries| <= n
  {
    if n == 0 then Orbit([], [], [])
    else
      var o := Scan(images, zone, n - 1);
      if VecInList(zone[n - 1], o.folded) then o
      else Orbit(o.symmetries + [n - 1], o.points + [images[n - 1]], o.folded + [zone[n - 1]])
  }

  /** Every kept entry is the image and folded image of its symmetry, one of
      the first n. */
  lemma {:induction false} ScanEntries(images: seq<Vec3>, zone: seq<Vec3>, n: nat)
    requires n <= |images| == |zone|
    ensures forall i :: 0 <= i < |Scan(images, zone, n).symmetries| ==>
              Scan(images, zone, n).symmetries[i] < n
              && Scan(images, zone, n).points[i] == images[Scan(images, zone, n).symmetries[i]]
              && Scan(images, zone, n).folded[i] == zone[Scan(images, zone, n).symmetries[i]]
  {
    if n > 0 {
      ScanEntries(images, zone, n - 1);
      ScanStep(images, zone, n - 1);
      var o := Scan(images, zone, n - 1);
      if !VecInList(zone[n - 1], o.folded) {
        var o' := Orbit(o.symmetries + [n - 1], o.points + [images[n - 1]], o.folded + [zone[n - 1]]);
        assert Scan(images, zone, n) == o';
        forall i | 0 <= i < |o'.symmetries|
          ensures o'.symmetries[i] < n && o'.points[i] == images[o'.symmetries[i]]
                  && o'.folded[i] == zone[o'.symmetries[i]]
        {
          if i < |o.symmetries| {
            assert o'.symmetries[i] == o.symmetries[i] && o'.points[i] == o.points[i];
            assert o'.folded[i] == o.folded[i];
          }
        }
      }
    }
  }

  /** The kept symmetries are in increasing order. */
  lemma {:induction false} ScanIncreasing(images: seq<Vec3>, zone: seq<Vec3>, n: nat)
    requires n <= |images| == |zone|
    ensures Increasing(Scan(images, zone, n).symmetries)
  {
    if n > 0 {
      ScanIncreasing(images, zone, n - 1);
      ScanEntries(images, zone, n - 1);
      ScanStep(images, zone, n - 1);
    }
  }

  /** The first symmetry is always kept: nothing has been kept before it. */
  lemma {:induction false} ScanKeepsFirst(images: seq<Vec3>, zone: seq<Vec3>, n: nat)
    requires 0 < n <= |images| == |zone|
    ensures |Scan(images, zone, n).symmetries| > 0 && Scan(images, zone, n).symmetries[0] == 0
  {
    if n > 1 {
      ScanKeepsFirst(images, zone, n - 1);
      ScanStep(images, zone, n - 1);
    } else {
      ScanStep(images, zone, 0);
    }
  }

  /** The orbit of k: the scan over every symmetry. */
  function OrbitOf(k: Vec3, syms: seq<Mat3>, rlat: Mat3): Orbit
    requires Det(rlat) != 0.0
  {
    Scan(ImagesOf(k, syms), ZonePoints(k, syms, rlat), |syms|)
  }

  /** What the orbit of k holds: increasing symmetry indices, starting with
      0 when there is a symmetry, each entry the image of k by its symmetry
      and that image's folded reduced coordinates. */
  lemma OrbitEntries(k: Vec3, syms: seq<Mat3>, rlat: Mat3)
    requires Det(rlat) != 0.0
    ensures var o := OrbitOf(k, syms, rlat);
            Consistent(o)
            && (forall i :: 0 <= i < |o.symmetries| ==>
                  o.symmetries[i] < |syms| && o.points[i] == MatVec(syms[o.symmetries[i]], k)
                  && o.folded[i] == ZonePoint(o.points[i], rlat))
            && Increasing(o.symmetries)
            && (|syms| > 0 ==> |o.symmetries| > 0 && o.symmetries[0] == 0)
  {
    var images, zone := ImagesOf(k, syms), ZonePoints(k, syms, rlat);
    ScanEntries(images, zone, |syms|);
    ScanIncreasing(images, zone, |syms|);
    if |syms| > 0 {
      ScanKeepsFirst(images, zone, |syms|);
    }
  }

  /** The orbit of every irreducible point. */
  function Orbits(kpts: seq<Vec3>, syms: seq<Mat3>, rlat: Mat3): (orbits: seq<Orbit>)
    requires Det(rlat) != 0.0
    ensures |orbits| == |kpts|
    ensures forall nk :: 0 <= nk < |kpts| ==> orbits[nk] == OrbitOf(kpts[nk], syms, rlat)
  {
    seq(|kpts|, nk requires 0 <= nk < |kpts| => OrbitOf(kpts[nk], syms, rlat))
  }

  /** The total size of the orbits: `full_nkpoints`. */
  function SumSizes(orbits: seq<Orbit>): nat {
    if orbits == [] then 0 else SumSizes(orbits[..|orbits| - 1]) + |orbits[|orbits| - 1].symmetries|
  }

  /** The outer loop of expandKpoints: each orbit's entries appended in turn,
      tagged with the index of its irreducible point. */
  function ListAll(orbits: seq<Orbit>): (l: Listing)
    requires forall nk :: 0 <= nk < |orbits| ==> Consistent(orbits[nk])
    ensures |l.points| == |l.kpoints| == |l.symmetries| == SumSizes(orbits)
    ensures forall i :: 0 <= i < |l.kpoints| ==> l.kpoints[i] < |orbits|
  {
    if orbits == [] then Listing([], [], [])
    else
      var m := |orbits| - 1;
      var l := ListAll(orbits[..m]);
      var o := orbits[m];
      assert Consistent(o);
      Listing(l.points + o.points, l.kpoints + Repeat<nat>(m, |o.symmetries|), l.symmetries + o.symmetries)
  }

  /** `float(len(kpoints_full_i[nk]))/self.full_nkpoints` for every orbit. */
  function Weights(orbits: seq<Orbit>): (w: seq<real>)
    requires SumSizes(orbits) > 0
    ensures |w| == |orbits|
  {
    seq(|orbits|, nk requires 0 <= nk < |orbits| => |orbits[nk].symmetries| as real / SumSizes(orbits) as real)
  }

  /** When the expansion succeeds: no irreducible points, or at least one
      symmetry and an invertible reciprocal lattice. */
  predicate Expandable(kpts: seq<Vec3>, syms: seq<Mat3>, rlat: Mat3) {
    |kpts| == 0 || (|syms| > 0 && Det(rlat) != 0.0)
  }

  /** Non-empty orbits give at least one full-zone point each. */
  lemma {:induction false} SumSizesAtLeast(orbits: seq<Orbit>)
    requires forall nk :: 0 <= nk < |orbits| ==> |orbits[nk].symmetries| > 0
    ensures SumSizes(orbits) >= |orbits|
  {
    if orbits != [] {
      SumSizesAtLeast(orbits[..|orbits| - 1]);
    }
  }

  /** With a symmetry every orbit of the lattice is non-empty. */
  lemma OrbitsNonEmpty(kpts: seq<Vec3>, syms: seq<Mat3>, rlat: Mat3)
    requires |syms| > 0 && Det(rlat) != 0.0
    ensures SumSizes(Orbits(kpts, syms, rlat)) >= |kpts|
  {
    var orbits := Orbits(kpts, syms, rlat);
    forall nk | 0 <= nk < |orbits|
      ensures |orbits[nk].symmetries| > 0
    {
      assert orbits[nk] == OrbitOf(kpts[nk], syms, rlat);
      OrbitEntries(kpts[nk], syms, rlat);
    }
    SumSizesAtLeast(orbits);
  }

  /** The orbits of the lattice are consistent. */
  lemma OrbitsConsistent(kpts: seq<Vec3>, syms: seq<Mat3>, rlat: Mat3)
    requires Det(rlat) != 0.0
    ensures forall nk :: 0 <= nk < |kpts| ==> Consistent(Orbits(kpts, syms, rlat)[nk])
  {
    var orbits := Orbits(kpts, syms, rlat);
    forall nk | 0 <= nk < |kpts|
      ensures Consistent(orbits[nk])
    {
      assert orbits[nk] == OrbitOf(kpts[nk], syms, rlat);
    }
  }

  /** The reference definition of what expandKpoints computes. */
  function ExpansionOf(kpts: seq<Vec3>, syms: seq<Mat3>, rlat: Mat3): (e: Expansion)
    requires Expandable(kpts, syms, rlat)
    ensures |e.kpointsFull| == |e.kpointsIndexes| == |e.symmetryIndexes| >= |kpts|
    ensures |e.weights| == |kpts|
  {
    if |kpts| == 0 then Expansion([], [], [], [])
    else
      var orbits := Orbits(kpts, syms, rlat);
      OrbitsConsistent(kpts, syms, rlat);
      OrbitsNonEmpty(kpts, syms, rlat);
      var l := ListAll(orbits);
      Expansion(l.points, l.kpoints, l.symmetries, Weights(orbits))
  }

  /** car_red of a single point, folded, is that point's ZonePoint. */
  lemma CarRedZonePoint(k: Vec3, rlat: Mat3)
    requires Det(rlat) != 0.0
    ensures CarRed([k], rlat).Ok?
    ensures Fold(CarRed([k], rlat).value[0]) == ZonePoint(k, rlat)
  {
    var red := CarRed([k], rlat).value[0];
    SolveCombine(rlat, red);
  }

  /** One step of Scan: symmetry n is kept exactly when its folded image is
      not close to a point already kept. */
  lemma ScanStep(images: seq<Vec3>, zone: seq<Vec3>, n: nat)
    requires n < |images| == |zone|
    ensures var o := Scan(images, zone, n);
            Scan(images, zone, n + 1)
            == if VecInList(zone[n], o.folded) then o
               else Orbit(o.symmetries + [n], o.points + [images[n]], o.folded + [zone[n]])
  {
  }

  /** One step of ListAll: orbit o appended. */
  lemma ListAllStep(orbits: seq<Orbit>, o: Orbit)
    requires forall nk :: 0 <= nk < |orbits| ==> Consistent(orbits[nk])
    requires Consistent(o)
    ensures forall nk :: 0 <= nk < |orbits + [o]| ==> Consistent((orbits + [o])[nk])
    ensures var l := ListAll(orbits);
            ListAll(orbits + [o])
            == Listing(l.points + o.points, l.kpoints + Repeat<nat>(|orbits|, |o.symmetries|), l.symmetries + o.symmetries)
  {
    assert (orbits + [o])[..|orbits|] == orbits;
  }

  /** The inner loop of expandKpoints for one irreducible point k: each
      symmetry's image, reduced with car_red and folded, is appended unless it
      is close to a folded point already kept for k. LinAlgError from car_red
      when the reciprocal lattice is singular. */
  method ScanSymmetries(k: Vec3, syms: seq<Mat3>, rlat: Mat3) returns (r: Result<Orbit>)
    ensures r.Err? <==> |syms| > 0 && Det(rlat) == 0.0
    ensures r.Err? ==> r.error == SingularBasis
    ensures r.Ok? && |syms| == 0 ==> r.value == Orbit([], [], [])
    ensures r.Ok? && |syms| > 0 ==> Det(rlat) != 0.0 && r.value == OrbitOf(k, syms, rlat)
  {
    var symmetries: seq<nat> := [];
    var points: seq<Vec3> := [];
    var folded: seq<Vec3> := [];
    for ns := 0 to |syms|
      invariant ns > 0 ==> Det(rlat) != 0.0
      invariant ns == 0 ==> symmetries == [] && points == [] && folded == []
      invariant ns > 0 ==>
                  Orbit(symmetries, points, folded) == Scan(ImagesOf(k, syms), ZonePoints(k, syms, rlat), ns)
    {
      var newK := MatVec(syms[ns], k);
      var kRed := CarRed([newK], rlat);
      if kRed.Err? {
        return Err(SingularBasis);
      }
      CarRedZonePoint(newK, rlat);
      ScanStep(ImagesOf(k, syms), ZonePoints(k, syms, rlat), ns);
      var kBz := Fold(kRed.value[0]);
      if !VecInList(kBz, folded) {
        folded := folded + [kBz];
        points := points + [newK];
        symmetries := symmetries + [ns];
      }
    }
    return Ok(Orbit(symmetries, points, folded));
  }

  /** The weights loop of expandKpoints: `weights` starts as
      `np.zeros([nkpoints])` and, for each key nk of `kpoints_full_i` (the
      keys 0 .. nkeys-1, in no particular order), gets the size of that orbit
      over the number of full-zone points. ZeroDivisionError when there is a
      key and nothing was expanded, IndexError when a key is past the end of
      the array. */
  method FillWeights(folded: map<nat, seq<Vec3>>, nkeys: nat, nkpoints: nat, fullNkpoints: nat)
    returns (r: Result<seq<real>>)
    requires forall j: nat :: j in folded <==> j < nkeys
    ensures r.Err? <==> nkeys > 0 && (fullNkpoints == 0 || nkeys > nkpoints)
    ensures r.Err? ==> r.error == if fullNkpoints == 0 then ZeroDivision else WeightIndexOutOfRange
    ensures r.Ok? ==> |r.value| == nkpoints
    ensures r.Ok? ==> forall j :: 0 <= j < nkpoints ==>
              r.value[j] == if j < nkeys then |folded[j]| as real / fullNkpoints as real else 0.0
  {
    var weights := new real[nkpoints](_ => 0.0);
    var keys := folded.Keys;
    while keys != {}
      invariant keys <= folded.Keys
      invariant keys != folded.Keys ==> fullNkpoints > 0
      invariant forall j :: j in folded.Keys && j !in keys ==>
                  j < nkpoints && weights[j] == |folded[j]| as real / fullNkpoints as real
      invariant forall j :: 0 <= j < nkpoints && (j !in folded.Keys || j in keys) ==> weights[j] == 0.0
      decreases keys
    {
      var nk :| nk in keys;
      if fullNkpoints == 0 {
        return Err(ZeroDivision);
      }
      if nk >= nkpoints {
        return Err(WeightIndexOutOfRange);
      }
      weights[nk] := |folded[nk]| as real / fullNkpoints as real;
      keys := keys - {nk};
    }
    if nkeys > 0 {
      assert nkeys - 1 in folded.Keys;
    }
    return Ok(weights[..]);
  }

  /** orbits are the orbits of the first |orbits| irreducible points. */
  predicate OrbitsUpTo(kpts: seq<Vec3>, syms: seq<Mat3>, rlat: Mat3, orbits: seq<Orbit>)
    requires Det(rlat) != 0.0
  {
    |orbits| <= |kpts|
    && (orbits == [] || (OrbitsUpTo(kpts, syms, rlat, orbits[..|orbits| - 1])
                         && orbits[|orbits| - 1] == OrbitOf(kpts[|orbits| - 1], syms, rlat)))
  }

  /** The orbits gathered by the loop are the orbits of the lattice. */
  lemma {:induction false} GatheredOrbits(kpts: seq<Vec3>, syms: seq<Mat3>, rlat: Mat3, orbits: seq<Orbit>)
    requires Det(rlat) != 0.0 && OrbitsUpTo(kpts, syms, rlat, orbits)
    ensures forall j :: 0 <= j < |orbits| ==> orbits[j] == OrbitOf(kpts[j], syms, rlat)
    ensures |orbits| == |kpts| ==> orbits == Orbits(kpts, syms, rlat)
  {
    if orbits != [] {
      GatheredOrbits(kpts, syms, rlat, orbits[..|orbits| - 1]);
    }
  }

  /** What the outer loop of expandKpoints leaves: the three full-zone lists
      and the map `kpoints_full_i` from irreducible index to folded points. */
  datatype Gathering = Gathering(listing: Listing, folded: map<nat, seq<Vec3>>)

  /** When the outer loop gets through: car_red is only called when there is
      a point and a symmetry, and then needs an invertible reciprocal lattice. */
  predicate Scannable(kpts: seq<Vec3>, syms: seq<Mat3>, rlat: Mat3) {
    |kpts| == 0 || |syms| == 0 || Det(rlat) != 0.0
  }

  /** The reference definition of the outer loop: the orbits of the lattice
      strung together, and each orbit's folded points under its index. With
      no symmetry every orbit is empty. */
  function GatheringOf(kpts: seq<Vec3>, syms: seq<Mat3>, rlat: Mat3): (g: Gathering)
    requires Scannable(kpts, syms, rlat)
    ensures forall j: nat :: j in g.folded <==> j < |kpts|
    ensures |g.listing.points| == |g.listing.kpoints| == |g.listing.symmetries|
    ensures |syms| == 0 ==> g.listing.points == []
    ensures |syms| > 0 ==> |g.listing.points| >= |kpts|
  {
    if |kpts| == 0 then Gathering(Listing([], [], []), map[])
    else if |syms| == 0 then
      var empty := seq(|kpts|, _ => Orbit([], [], []));
      Gathering(Listing([], [], []), map j: nat | j < |kpts| :: empty[j].folded)
    else
      var orbits := Orbits(kpts, syms, rlat);
      OrbitsConsistent(kpts, syms, rlat);
      OrbitsNonEmpty(kpts, syms, rlat);
      Gathering(ListAll(orbits), map j: nat | j < |kpts| :: orbits[j].folded)
  }

  /** The state of expandKpoints after its first nk irreducible points: the
      map `kpoints_full_i` holds the folded points of each orbit so far and
      the three full lists are those orbits strung together; with no
      symmetry every orbit is empty. (That the orbits are those of the
      lattice is OrbitsUpTo, kept beside it.) */
  ghost predicate Gathered(kpts: seq<Vec3>, syms: seq<Mat3>, rlat: Mat3, nk: nat,
                           folded: map<nat, seq<Vec3>>, l: Listing, orbits: seq<Orbit>)
  {
    nk <= |kpts| && |orbits| == nk
    && (forall j: nat :: j in folded <==> j < nk)
    && (forall j :: 0 <= j < nk ==> Consistent(orbits[j]) && folded[j] == orbits[j].folded)
    && l == ListAll(orbits)
    && (|syms| == 0 ==> l.points == [] && forall j :: 0 <= j < nk ==> orbits[j] == Orbit([], [], []))
  }

  /** The orbits so far, followed by the orbit of the next point. */
  lemma OrbitsUpToStep(kpts: seq<Vec3>, syms: seq<Mat3>, rlat: Mat3, orbits: seq<Orbit>, o: Orbit)
    requires Det(rlat) != 0.0 && |orbits| < |kpts|
    requires |orbits| > 0 ==> OrbitsUpTo(kpts, syms, rlat, orbits)
    requires o == OrbitOf(kpts[|orbits|], syms, rlat)
    ensures OrbitsUpTo(kpts, syms, rlat, orbits + [o])
  {
    var extended := orbits + [o];
    assert extended[..|orbits|] == orbits;
    assert extended[|extended| - 1] == o;
    assert OrbitsUpTo(kpts, syms, rlat, extended[..|extended| - 1]);
  }

  /** One turn of the outer loop keeps Gathered. */
  lemma GatherStep(kpts: seq<Vec3>, syms: seq<Mat3>, rlat: Mat3, nk: nat,
                   folded: map<nat, seq<Vec3>>, l: Listing, orbits: seq<Orbit>, o: Orbit)
    requires nk < |kpts| && Gathered(kpts, syms, rlat, nk, folded, l, orbits)
    requires Consistent(o)
    requires |syms| == 0 ==> o == Orbit([], [], [])
    ensures Gathered(kpts, syms, rlat, nk + 1, folded[nk := o.folded],
                     Listing(l.points + o.points, l.kpoints + Repeat<nat>(nk, |o.symmetries|), l.symmetries + o.symmetries),
                     orbits + [o])
  {
    ListAllStep(orbits, o);
    var orbits' := orbits + [o];
    var folded' := folded[nk := o.folded];
    forall j | 0 <= j < nk + 1
      ensures Consistent(orbits'[j]) && folded'[j] == orbits'[j].folded
      ensures |syms| == 0 ==> orbits'[j] == Orbit([], [], [])
    {
      if j < nk {
        assert orbits'[j] == orbits[j];
      }
    }
  }

  /** What the outer loop leaves after every irreducible point is the
      reference gathering. */
  lemma GatheredAll(kpts: seq<Vec3>, syms: seq<Mat3>, rlat: Mat3, folded: map<nat, seq<Vec3>>, l: Listing,
                    orbits: seq<Orbit>)
    requires Scannable(kpts, syms, rlat)
    requires Gathered(kpts, syms, rlat, |kpts|, folded, l, orbits)
    requires |syms| > 0 && |kpts| > 0 ==> Det(rlat) != 0.0 && OrbitsUpTo(kpts, syms, rlat, orbits)
    ensures Gathering(l, folded) == GatheringOf(kpts, syms, rlat)
  {
    if |kpts| == 0 {
      assert folded == map[];
    } else if |syms| == 0 {
      var empty := seq(|kpts|, _ => Orbit([], [], []));
      assert folded == map j: nat | j < |kpts| :: empty[j].folded;
    } else {
      GatheredOrbits(kpts, syms, rlat, orbits);
      assert folded == map j: nat | j < |kpts| :: orbits[j].folded;
    }
  }

  /** The outer loop of expandKpoints: for every irreducible point its orbit,
      appended to the full lists and kept in the map `kpoints_full_i`.
      LinAlgError when car_red meets a singular reciprocal lattice. */
  method GatherOrbits(kpts: seq<Vec3>, syms: seq<Mat3>, rlat: Mat3) returns (r: Result<Gathering>)
    ensures r.Err? <==> !Scannable(kpts, syms, rlat)
    ensures r.Err? ==> r.error == SingularBasis
    ensures r.Ok? ==> r.value == GatheringOf(kpts, syms, rlat)
  {
    var kpointsIndexes: seq<nat> := [];
    var kpointsFull: seq<Vec3> := [];
    var symmetryIndexes: seq<nat> := [];
    var kpointsFullI: map<nat, seq<Vec3>> := map[];
    ghost var orbits: seq<Orbit> := [];

    for nk := 0 to |kpts|
      invariant Gathered(kpts, syms, rlat, nk, kpointsFullI,
                         Listing(kpointsFull, kpointsIndexes, symmetryIndexes), orbits)
      invariant |syms| > 0 && nk > 0 ==> Det(rlat) != 0.0 && OrbitsUpTo(kpts, syms, rlat, orbits)
    {
      var orbit := ScanSymmetries(kpts[nk], syms, rlat);
      if orbit.Err? {
        return Err(SingularBasis);
      }
      var o := orbit.value;
      if |syms| > 0 {
        OrbitsUpToStep(kpts, syms, rlat, orbits, o);
      }
      GatherStep(kpts, syms, rlat, nk, kpointsFullI, Listing(kpointsFull, kpointsIndexes, symmetryIndexes),
                 orbits, o);
      kpointsFullI := kpointsFullI[nk := o.folded];
      kpointsFull := kpointsFull + o.points;
      kpointsIndexes := kpointsIndexes + Repeat<nat>(nk, |o.symmetries|);
      symmetryIndexes := symmetryIndexes + o.symmetries;
      orbits := orbits + [o];
    }
    var l := Listing(kpointsFull, kpointsIndexes, symmetryIndexes);
    GatheredAll(kpts, syms, rlat, kpointsFullI, l, orbits);
    return Ok(Gathering(l, kpointsFullI));
  }

  /** The weights extended with zeros to the n entries of `np.zeros([n])`. */
  function Padded(w: seq<real>, n: nat): (p: seq<real>)
    requires |w| <= n
    ensures |p| == n
    ensures forall j :: 0 <= j < n ==> p[j] == if j < |w| then w[j] else 0.0
  {
    w + seq(n - |w|, _ => 0.0)
  }

  /** The reference definition of expandKpoints as a whole, for irreducible
      points kpts and a weights array of nkpoints entries: LinAlgError from
      the outer loop, then ValueError from `np.zeros`, then ZeroDivisionError
      or IndexError from the weights loop; otherwise the reference expansion
      with its weights padded to nkpoints. */
  function ExpansionResult(kpts: seq<Vec3>, syms: seq<Mat3>, rlat: Mat3, nkpoints: int): Result<Expansion> {
    if !Scannable(kpts, syms, rlat) then Err(SingularBasis)
    else if nkpoints < 0 then Err(NegativeDimension)
    else if |kpts| > 0 && |syms| == 0 then Err(ZeroDivision)
    else if |kpts| > nkpoints then Err(WeightIndexOutOfRange)
    else
      var e := ExpansionOf(kpts, syms, rlat);
      Ok(e.(weights := Padded(e.weights, nkpoints)))
  }

  /** The listing gathered by the outer loop is the reference expansion's. */
  lemma GatheringListing(kpts: seq<Vec3>, syms: seq<Mat3>, rlat: Mat3)
    requires Expandable(kpts, syms, rlat)
    ensures var e := ExpansionOf(kpts, syms, rlat);
            GatheringOf(kpts, syms, rlat).listing == Listing(e.kpointsFull, e.kpointsIndexes, e.symmetryIndexes)
  {
  }

  /** The weights filled from the gathered map are the reference weights,
      padded. */
  lemma FilledWeights(kpts: seq<Vec3>, syms: seq<Mat3>, rlat: Mat3, nkpoints: nat, w: seq<real>)
    requires Expandable(kpts, syms, rlat) && |kpts| <= nkpoints && |w| == nkpoints
    requires forall j :: 0 <= j < nkpoints ==>
               w[j] == if j < |kpts| then |GatheringOf(kpts, syms, rlat).folded[j]| as real
                                          / |GatheringOf(kpts, syms, rlat).listing.points| as real
                       else 0.0
    ensures w == Padded(ExpansionOf(kpts, syms, rlat).weights, nkpoints)
  {
    if |kpts| > 0 {
      var orbits := Orbits(kpts, syms, rlat);
      OrbitsConsistent(kpts, syms, rlat);
      var g := GatheringOf(kpts, syms, rlat);
      assert g.folded == map j: nat | j < |kpts| :: orbits[j].folded;
      assert |g.listing.points| == SumSizes(orbits);
    }
  }

  /** `full_nkpoints`, the number of full-zone points the outer loop
      gathers, or the LinAlgError that stops it first. */
  function FullCount(kpts: seq<Vec3>, syms: seq<Mat3>, rlat: Mat3): Result<nat> {
    if Scannable(kpts, syms, rlat) then Ok(|GatheringOf(kpts, syms, rlat).listing.points|) else Err(SingularBasis)
  }

  /** expandKpoints on values: the outer loop, then the weights array of
      nkpoints entries (ValueError when nkpoints is negative), then the
      weights loop. Gives the number of full-zone points once the outer loop
      is through, whatever happens after it, and the expansion or the error
      of the reference ExpansionResult. */
  method Expand(kpts: seq<Vec3>, syms: seq<Mat3>, rlat: Mat3, nkpoints: int)
    returns (counted: Result<nat>, r: Result<Expansion>)
    ensures counted == FullCount(kpts, syms, rlat)
    ensures r == ExpansionResult(kpts, syms, rlat, nkpoints)
    ensures r.Ok? ==> Expandable(kpts, syms, rlat) && CarRed(r.value.kpointsFull, rlat).Ok?
    ensures r.Ok? ==> counted == Ok(|r.value.kpointsFull|)
  {
    var gathered := GatherOrbits(kpts, syms, rlat);
    if gathered.Err? {
      return Err(SingularBasis), Err(SingularBasis);
    }
    var g := gathered.value;
    counted := Ok(|g.listing.points|);
    if nkpoints < 0 {
      return counted, Err(NegativeDimension);
    }
    var weights := FillWeights(g.folded, |kpts|, nkpoints, |g.listing.points|);
    if weights.Err? {
      return counted, Err(weights.error);
    }
    FilledWeights(kpts, syms, rlat, nkpoints, weights.value);
    GatheringListing(kpts, syms, rlat);
    r := Ok(Expansion(g.listing.points, g.listing.kpoints, g.listing.symmetries, weights.value));
  }

  /** With the weights array sized to the irreducible list, as process
      leaves it, the expansion fails exactly when it is not Expandable
      (ZeroDivisionError without symmetries, LinAlgError on a singular
      reciprocal lattice) and otherwise gives the reference expansion. */
  lemma ExpansionResultExact(kpts: seq<Vec3>, syms: seq<Mat3>, rlat: Mat3)
    ensures ExpansionResult(kpts, syms, rlat, |kpts|).Ok? <==> Expandable(kpts, syms, rlat)
    ensures ExpansionResult(kpts, syms, rlat, |kpts|).Err? ==>
              ExpansionResult(kpts, syms, rlat, |kpts|).error == if |syms| == 0 then ZeroDivision else SingularBasis
    ensures Expandable(kpts, syms, rlat) ==> ExpansionResult(kpts, syms, rlat, |kpts|) == Ok(ExpansionOf(kpts, syms, rlat))
  {
    if Expandable(kpts, syms, rlat) {
      var e := ExpansionOf(kpts, syms, rlat);
      assert Padded(e.weights, |kpts|) == e.weights;
      assert e.(weights := e.weights) == e;
    }
  }

  /** The expansion of a list process converted: its car_red went through,
      so the reciprocal lattice is regular or the list empty, and the weights
      array has one entry per point. The only error left is the
      ZeroDivisionError of an empty symmetry list. */
  lemma ProcessedExpansion(kpts: seq<Vec3>, syms: seq<Mat3>, rlat: Mat3)
    requires |kpts| == 0 || Det(rlat) != 0.0
    ensures ExpansionResult(kpts, syms, rlat, |kpts|).Err? <==> |kpts| > 0 && |syms| == 0
    ensures ExpansionResult(kpts, syms, rlat, |kpts|).Err? ==> ExpansionResult(kpts, syms, rlat, |kpts|).error == ZeroDivision
    ensures ExpansionResult(kpts, syms, rlat, |kpts|).Ok? ==>
              Expandable(kpts, syms, rlat) && ExpansionResult(kpts, syms, rlat, |kpts|).value == ExpansionOf(kpts, syms, rlat)
  {
    ExpansionResultExact(kpts, syms, rlat);
  }

  /** Expanding again is an IndexError: the weights array keeps the size of
      the irreducible list, and the full list that replaced it is longer. */
  lemma ReexpansionFails(kpts: seq<Vec3>, syms: seq<Mat3>, rlat: Mat3, nkpoints: int)
    requires ExpansionResult(kpts, syms, rlat, nkpoints).Ok?
    requires |ExpansionResult(kpts, syms, rlat, nkpoints).value.kpointsFull| > nkpoints
    ensures ExpansionResult(ExpansionResult(kpts, syms, rlat, nkpoints).value.kpointsFull, syms, rlat, nkpoints)
            == Err(WeightIndexOutOfRange)
  {
  }
}
