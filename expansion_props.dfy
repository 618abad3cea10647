/** What the expansion guarantees, proved about its reference definition
    (Scan, ListAll, Weights, ExpansionOf) and, through the equality that
    Expand ensures, about the loops themselves. */
module ExpansionProperties {
  import opened Vectors
  import opened Coordinates
  import opened Expansion
  import opened Lists
  import opened Errors

  /** Scanning fewer symmetries keeps a prefix of the symmetries (and so of
      the points and folded points, which the symmetries determine); the
      entries the longer scan adds come from the later symmetries. */
  lemma {:induction false} ScanPrefix(images: seq<Vec3>, zone: seq<Vec3>, m: nat, n: nat)
    requires m <= n <= |images| == |zone|
    ensures var a := Scan(images, zone, m).symmetries;
            var b := Scan(images, zone, n).symmetries;
            |a| <= |b| && (forall i :: 0 <= i < |a| ==> b[i] == a[i])
            && forall i :: |a| <= i < |b| ==> b[i] >= m
    decreases n
  {
    if m < n {
      ScanPrefix(images, zone, m, n - 1);
      ScanStep(images, zone, n - 1);
    }
  }

  /** Symmetry ns is kept exactly when its folded image is close to none of
      the points kept from the symmetries before it. */
  lemma ScanKeeps(images: seq<Vec3>, zone: seq<Vec3>, n: nat, ns: nat)
    requires ns < n <= |images| == |zone|
    ensures ns in Scan(images, zone, n).symmetries <==> !VecInList(zone[ns], Scan(images, zone, ns).folded)
  {
    var c := Scan(images, zone, ns);
    var a := Scan(images, zone, ns + 1);
    var b := Scan(images, zone, n);
    ScanStep(images, zone, ns);
    ScanPrefix(images, zone, ns + 1, n);
    ScanEntries(images, zone, ns);
    if VecInList(zone[ns], c.folded) {
      assert a == c;
      forall i | 0 <= i < |b.symmetries|
        ensures b.symmetries[i] != ns
      {
        if i < |a.symmetries| {
          assert b.symmetries[i] == c.symmetries[i] < ns;
        }
      }
    } else {
      var i := |c.symmetries|;
      assert a.symmetries[i] == ns;
      assert b.symmetries[i] == ns;
    }
  }

  /** First found wins: a symmetry that is not kept has its folded image close
      to a point kept for an earlier symmetry. */
  lemma ScanFirstFound(images: seq<Vec3>, zone: seq<Vec3>, n: nat, ns: nat)
    requires ns < n <= |images| == |zone|
    requires ns !in Scan(images, zone, n).symmetries
    ensures var o := Scan(images, zone, n);
            exists i :: 0 <= i < |o.symmetries| && o.symmetries[i] < ns && AllClose(zone[ns], o.folded[i])
  {
    ScanKeeps(images, zone, n, ns);
    ScanPrefix(images, zone, ns, n);
    ScanEntries(images, zone, ns);
    ScanEntries(images, zone, n);
    var a := Scan(images, zone, ns);
    var o := Scan(images, zone, n);
    var i :| 0 <= i < |a.folded| && AllClose(zone[ns], a.folded[i]);
    assert o.symmetries[i] == a.symmetries[i] && o.folded[i] == a.folded[i];
  }

  /** No kept point is close to a point kept before it. */
  lemma {:induction false} ScanDistinct(images: seq<Vec3>, zone: seq<Vec3>, n: nat)
    requires n <= |images| == |zone|
    ensures forall i, j :: 0 <= i < j < |Scan(images, zone, n).folded| ==>
              !AllClose(Scan(images, zone, n).folded[j], Scan(images, zone, n).folded[i])
  {
    if n > 0 {
      ScanDistinct(images, zone, n - 1);
      ScanStep(images, zone, n - 1);
    }
  }

  /** Of two symmetries with the same folded image only the first can be
      kept. */
  lemma RepeatedImageDropped(images: seq<Vec3>, zone: seq<Vec3>, n: nat, a: nat, b: nat)
    requires a < b < n <= |images| == |zone| && zone[a] == zone[b]
    ensures b !in Scan(images, zone, n).symmetries
  {
    ScanKeeps(images, zone, n, b);
    ScanEntries(images, zone, b);
    var o := Scan(images, zone, b);
    AllCloseReflexive(zone[b]);
    if a in o.symmetries {
      var i :| 0 <= i < |o.symmetries| && o.symmetries[i] == a;
      assert AllClose(zone[b], o.folded[i]);
    } else {
      ScanFirstFound(images, zone, b, a);
    }
  }

  /** A symmetry is dropped exactly when its folded image is close to a
      point kept for an earlier symmetry. */
  lemma ScanDropped(images: seq<Vec3>, zone: seq<Vec3>, n: nat, ns: nat)
    requires ns < n <= |images| == |zone|
    ensures var o := Scan(images, zone, n);
            ns !in o.symmetries <==>
            exists i :: 0 <= i < |o.symmetries| && o.symmetries[i] < ns && AllClose(zone[ns], o.folded[i])
  {
    var o := Scan(images, zone, n);
    if ns !in o.symmetries {
      ScanFirstFound(images, zone, n, ns);
    } else {
      ScanDistinct(images, zone, n);
      ScanEntries(images, zone, n);
      ScanIncreasing(images, zone, n);
      assert Increasing(o.symmetries);
      var j :| 0 <= j < |o.symmetries| && o.symmetries[j] == ns;
      forall i | 0 <= i < |o.symmetries| && o.symmetries[i] < ns
        ensures !AllClose(zone[ns], o.folded[i])
      {
        assert i < j;
        assert o.folded[j] == zone[ns];
      }
    }
  }

  /** The orbit of k keeps a symmetry unless its folded image is close to the
      folded image of an earlier symmetry already kept: the first symmetry
      found for a point wins. */
  lemma OrbitFirstFound(k: Vec3, syms: seq<Mat3>, rlat: Mat3, ns: nat)
    requires ns < |syms| && Det(rlat) != 0.0
    ensures var o := OrbitOf(k, syms, rlat);
            var p := ZonePoint(MatVec(syms[ns], k), rlat);
            ns !in o.symmetries <==>
            exists i :: 0 <= i < |o.symmetries| && o.symmetries[i] < ns && AllClose(p, o.folded[i])
  {
    var zone := ZonePoints(k, syms, rlat);
    assert zone[ns] == ZonePoint(MatVec(syms[ns], k), rlat);
    ScanDropped(ImagesOf(k, syms), zone, |syms|, ns);
  }

  /** A symmetry operation listed twice contributes once: the later copy is
      never kept. */
  lemma RepeatedSymmetryDropped(k: Vec3, syms: seq<Mat3>, rlat: Mat3, a: nat, b: nat)
    requires a < b < |syms| && Det(rlat) != 0.0 && syms[a] == syms[b]
    ensures b !in OrbitOf(k, syms, rlat).symmetries
  {
    var zone := ZonePoints(k, syms, rlat);
    assert zone[a] == zone[b];
    RepeatedImageDropped(ImagesOf(k, syms), zone, |syms|, a, b);
  }

  /** Number of entries of s equal to x. */
  function Count(s: seq<nat>, x: nat): (c: nat)
    ensures c <= |s|
    ensures c > 0 <==> x in s
  {
    if s == [] then 0 else Count(s[..|s| - 1], x) + (if s[|s| - 1] == x then 1 else 0)
  }

  lemma {:induction false} CountAppend(a: seq<nat>, b: seq<nat>, x: nat)
    ensures Count(a + b, x) == Count(a, x) + Count(b, x)
    decreases |b|
  {
    if b == [] {
      assert a + b == a;
    } else {
      assert (a + b)[..|a + b| - 1] == a + b[..|b| - 1];
      CountAppend(a, b[..|b| - 1], x);
    }
  }

  lemma {:induction false} CountRepeat(y: nat, n: nat, x: nat)
    ensures Count(Repeat<nat>(y, n), x) == if x == y then n else 0
  {
    if n > 0 {
      var r := Repeat<nat>(y, n);
      assert r == Repeat<nat>(y, n - 1) + [y];
      assert r[..n - 1] == Repeat<nat>(y, n - 1);
      CountRepeat(y, n - 1, x);
      assert Count(r, x) == Count(r[..n - 1], x) + (if r[n - 1] == x then 1 else 0);
    }
  }

  predicate AllConsistent(orbits: seq<Orbit>) {
    forall nk :: 0 <= nk < |orbits| ==> Consistent(orbits[nk])
  }

  /** ListAll unfolded once: the last orbit appended to the listing of the
      others. */
  lemma ListAllLast(orbits: seq<Orbit>)
    requires AllConsistent(orbits) && orbits != []
    ensures var m := |orbits| - 1;
            var l := ListAll(orbits[..m]);
            var o := orbits[m];
            ListAll(orbits) == Listing(l.points + o.points, l.kpoints + Repeat<nat>(m, |o.symmetries|), l.symmetries + o.symmetries)
  {
  }

  /** The irreducible indices never decrease along the full list, and within
      the entries of one irreducible point the symmetry indices strictly
      increase. */
  lemma {:induction false} ListAllOrdered(orbits: seq<Orbit>)
    requires AllConsistent(orbits)
    requires forall nk :: 0 <= nk < |orbits| ==> Increasing(orbits[nk].symmetries)
    ensures var l := ListAll(orbits);
            forall i, j :: 0 <= i < j < |l.kpoints| ==>
              l.kpoints[i] <= l.kpoints[j]
              && (l.kpoints[i] == l.kpoints[j] ==> l.symmetries[i] < l.symmetries[j])
  {
    if orbits != [] {
      var m := |orbits| - 1;
      var prefix := orbits[..m];
      assert AllConsistent(prefix);
      assert forall nk :: 0 <= nk < |prefix| ==> Increasing(prefix[nk].symmetries);
      ListAllOrdered(prefix);
      ListAllLast(orbits);
      var l := ListAll(prefix);
      var o := orbits[m];
      OrderedAppend(l.kpoints, l.symmetries, m, o.symmetries);
    }
  }

  /** Appending the entries of orbit m, with increasing symmetry indices, to
      a listing of earlier orbits keeps it ordered. */
  lemma OrderedAppend(ks: seq<nat>, ss: seq<nat>, m: nat, syms: seq<nat>)
    requires |ks| == |ss| && forall i :: 0 <= i < |ks| ==> ks[i] < m
    requires forall i, j :: 0 <= i < j < |ks| ==> ks[i] <= ks[j] && (ks[i] == ks[j] ==> ss[i] < ss[j])
    requires Increasing(syms)
    ensures var ks', ss' := ks + Repeat<nat>(m, |syms|), ss + syms;
            forall i, j :: 0 <= i < j < |ks'| ==> ks'[i] <= ks'[j] && (ks'[i] == ks'[j] ==> ss'[i] < ss'[j])
  {
    var ks', ss' := ks + Repeat<nat>(m, |syms|), ss + syms;
    var base := |ks|;
    forall i, j | 0 <= i < j < |ks'|
      ensures ks'[i] <= ks'[j] && (ks'[i] == ks'[j] ==> ss'[i] < ss'[j])
    {
      if j < base {
        assert ks'[i] == ks[i] && ks'[j] == ks[j] && ss'[i] == ss[i] && ss'[j] == ss[j];
      } else if i < base {
        assert ks'[i] == ks[i] < m && ks'[j] == m;
      } else {
        assert ks'[i] == m && ks'[j] == m;
        assert ss'[i] == syms[i - base] && ss'[j] == syms[j - base];
      }
    }
  }

  /** Irreducible point nk appears in the full list once per point of its
      orbit. */
  lemma {:induction false} ListAllCount(orbits: seq<Orbit>, nk: nat)
    requires AllConsistent(orbits)
    ensures Count(ListAll(orbits).kpoints, nk) == if nk < |orbits| then |orbits[nk].symmetries| else 0
  {
    if orbits != [] {
      var m := |orbits| - 1;
      assert AllConsistent(orbits[..m]);
      ListAllCount(orbits[..m], nk);
      ListAllLast(orbits);
      var o := orbits[m];
      CountAppend(ListAll(orbits[..m]).kpoints, Repeat<nat>(m, |o.symmetries|), nk);
      CountRepeat(m, |o.symmetries|, nk);
    }
  }

  /** Entry (s, p) belongs to orbit o: p is the image o keeps for symmetry s. */
  predicate InOrbit(o: Orbit, s: nat, p: Vec3) {
    exists j :: 0 <= j < |o.symmetries| && j < |o.points| && o.symmetries[j] == s && o.points[j] == p
  }

  /** Every entry of the full list is one an orbit keeps, tagged with the
      index of that orbit. */
  lemma {:induction false} ListAllEntries(orbits: seq<Orbit>)
    requires AllConsistent(orbits)
    ensures var l := ListAll(orbits);
            forall i :: 0 <= i < |l.kpoints| ==> InOrbit(orbits[l.kpoints[i]], l.symmetries[i], l.points[i])
  {
    if orbits != [] {
      var m := |orbits| - 1;
      var prefix := orbits[..m];
      assert AllConsistent(prefix);
      ListAllEntries(prefix);
      ListAllLast(orbits);
      var l := ListAll(prefix);
      var o := orbits[m];
      var n := ListAll(orbits);
      forall i | 0 <= i < |n.kpoints|
        ensures InOrbit(orbits[n.kpoints[i]], n.symmetries[i], n.points[i])
      {
        if i < |l.kpoints| {
          var nk := l.kpoints[i];
          assert n.kpoints[i] == nk && n.symmetries[i] == l.symmetries[i] && n.points[i] == l.points[i];
          assert prefix[nk] == orbits[nk];
          assert InOrbit(prefix[nk], l.symmetries[i], l.points[i]);
        } else {
          var j := i - |l.kpoints|;
          assert n.kpoints[i] == Repeat<nat>(m, |o.symmetries|)[j] == m;
          assert n.symmetries[i] == o.symmetries[j] && n.points[i] == o.points[j];
          assert InOrbit(o, o.symmetries[j], o.points[j]);
        }
      }
    }
  }

  /** An orbit whose first kept symmetry is 0 shows up in the full list with
      that entry. */
  lemma {:induction false} ListAllCovers(orbits: seq<Orbit>, nk: nat)
    requires AllConsistent(orbits) && nk < |orbits|
    requires |orbits[nk].symmetries| > 0 && orbits[nk].symmetries[0] == 0
    ensures var l := ListAll(orbits);
            exists i :: 0 <= i < |l.kpoints| && l.kpoints[i] == nk && l.symmetries[i] == 0
                        && l.points[i] == orbits[nk].points[0]
  {
    var m := |orbits| - 1;
    var prefix := orbits[..m];
    var l := ListAll(prefix);
    var n := ListAll(orbits);
    ListAllLast(orbits);
    if nk == m {
      var i := |l.kpoints|;
      assert n.kpoints[i] == Repeat<nat>(m, |orbits[m].symmetries|)[0] == nk;
      assert n.symmetries[i] == 0 && n.points[i] == orbits[nk].points[0];
    } else {
      assert prefix[nk] == orbits[nk];
      assert AllConsistent(prefix);
      ListAllCovers(prefix, nk);
      var i :| 0 <= i < |l.kpoints| && l.kpoints[i] == nk && l.symmetries[i] == 0
               && l.points[i] == orbits[nk].points[0];
      assert n.kpoints[i] == nk && n.symmetries[i] == 0 && n.points[i] == l.points[i];
    }
  }

  /** The orbits of the lattice, as the expansion strings them together. */
  lemma ExpansionListing(kpts: seq<Vec3>, syms: seq<Mat3>, rlat: Mat3)
    requires |kpts| > 0 && Expandable(kpts, syms, rlat)
    ensures AllConsistent(Orbits(kpts, syms, rlat))
    ensures var e := ExpansionOf(kpts, syms, rlat);
            var l := ListAll(Orbits(kpts, syms, rlat));
            e.kpointsFull == l.points && e.kpointsIndexes == l.kpoints && e.symmetryIndexes == l.symmetries
            && SumSizes(Orbits(kpts, syms, rlat)) > 0 && e.weights == Weights(Orbits(kpts, syms, rlat))
  {
    OrbitsConsistent(kpts, syms, rlat);
    OrbitsNonEmpty(kpts, syms, rlat);
  }

  /** Every entry of the expansion is the image of its irreducible point by
      its symmetry: entry i of the full list is symmetry symmetryIndexes[i]
      applied to irreducible point kpointsIndexes[i]. */
  lemma ExpansionEntries(kpts: seq<Vec3>, syms: seq<Mat3>, rlat: Mat3)
    requires Expandable(kpts, syms, rlat)
    ensures var e := ExpansionOf(kpts, syms, rlat);
            forall i :: 0 <= i < |e.kpointsFull| ==>
              e.kpointsIndexes[i] < |kpts| && e.symmetryIndexes[i] < |syms|
              && e.kpointsFull[i] == MatVec(syms[e.symmetryIndexes[i]], kpts[e.kpointsIndexes[i]])
  {
    if |kpts| > 0 {
      var orbits := Orbits(kpts, syms, rlat);
      ExpansionListing(kpts, syms, rlat);
      ListAllEntries(orbits);
      var l := ListAll(orbits);
      forall i | 0 <= i < |l.kpoints|
        ensures l.symmetries[i] < |syms| && l.points[i] == MatVec(syms[l.symmetries[i]], kpts[l.kpoints[i]])
      {
        var nk := l.kpoints[i];
        var o := orbits[nk];
        OrbitEntries(kpts[nk], syms, rlat);
        assert InOrbit(o, l.symmetries[i], l.points[i]);
        var j :| 0 <= j < |o.symmetries| && j < |o.points| && o.symmetries[j] == l.symmetries[i] && o.points[j] == l.points[i];
      }
    }
  }

  /** The irreducible indices of the expansion never decrease, and within one
      irreducible point the symmetry indices strictly increase. */
  lemma ExpansionOrdered(kpts: seq<Vec3>, syms: seq<Mat3>, rlat: Mat3)
    requires Expandable(kpts, syms, rlat)
    ensures var e := ExpansionOf(kpts, syms, rlat);
            forall i, j :: 0 <= i < j < |e.kpointsIndexes| ==>
              e.kpointsIndexes[i] <= e.kpointsIndexes[j]
              && (e.kpointsIndexes[i] == e.kpointsIndexes[j] ==> e.symmetryIndexes[i] < e.symmetryIndexes[j])
  {
    if |kpts| > 0 {
      var orbits := Orbits(kpts, syms, rlat);
      ExpansionListing(kpts, syms, rlat);
      forall nk | 0 <= nk < |orbits|
        ensures Increasing(orbits[nk].symmetries)
      {
        OrbitEntries(kpts[nk], syms, rlat);
      }
      ListAllOrdered(orbits);
    }
  }

  /** Every irreducible point of an expansion is covered by its image under
      the first symmetry and appears as often as its orbit is large. */
  lemma ExpansionCovers(kpts: seq<Vec3>, syms: seq<Mat3>, rlat: Mat3, nk: nat)
    requires |syms| > 0 && Det(rlat) != 0.0 && nk < |kpts|
    ensures var e := ExpansionOf(kpts, syms, rlat);
            Count(e.kpointsIndexes, nk) == |OrbitOf(kpts[nk], syms, rlat).symmetries| >= 1
            && exists i :: 0 <= i < |e.kpointsIndexes| && e.kpointsIndexes[i] == nk
                           && e.symmetryIndexes[i] == 0 && e.kpointsFull[i] == MatVec(syms[0], kpts[nk])
  {
    var orbits := Orbits(kpts, syms, rlat);
    ExpansionListing(kpts, syms, rlat);
    OrbitEntries(kpts[nk], syms, rlat);
    ListAllCount(orbits, nk);
    ListAllCovers(orbits, nk);
  }

  /** Sum of a list of reals. */
  function SumReals(s: seq<real>): real {
    if s == [] then 0.0 else SumReals(s[..|s| - 1]) + s[|s| - 1]
  }

  lemma DivAdd(a: real, b: real, t: real)
    requires t > 0.0
    ensures a / t + b / t == (a + b) / t
  {
  }

  lemma DivPositive(a: real, t: real)
    requires a > 0.0 && t > 0.0
    ensures a / t > 0.0
  {
  }

  lemma {:induction false} WeightsPrefixSum(orbits: seq<Orbit>, m: nat)
    requires SumSizes(orbits) > 0 && m <= |orbits|
    ensures SumReals(Weights(orbits)[..m]) == SumSizes(orbits[..m]) as real / SumSizes(orbits) as real
  {
    if m > 0 {
      var w := Weights(orbits);
      var total := SumSizes(orbits) as real;
      WeightsPrefixSum(orbits, m - 1);
      assert w[..m][..m - 1] == w[..m - 1];
      assert orbits[..m][..m - 1] == orbits[..m - 1];
      var a := SumSizes(orbits[..m - 1]) as real;
      var b := |orbits[m - 1].symmetries| as real;
      assert SumSizes(orbits[..m]) as real == a + b;
      assert SumReals(w[..m]) == a / total + w[m - 1];
      assert w[m - 1] == b / total;
      DivAdd(a, b, total);
    }
  }

  /** The weights add up to one. */
  lemma WeightsTotal(orbits: seq<Orbit>)
    requires SumSizes(orbits) > 0
    ensures SumReals(Weights(orbits)) == 1.0
  {
    WeightsPrefixSum(orbits, |orbits|);
    assert Weights(orbits)[..|orbits|] == Weights(orbits);
    assert orbits[..|orbits|] == orbits;
    DivSelf(SumSizes(orbits) as real);
  }

  lemma DivSelf(t: real)
    requires t > 0.0
    ensures t / t == 1.0
  {
  }

  /** The weights of the irreducible points of an expansion add up to one. */
  lemma WeightsSumToOne(kpts: seq<Vec3>, syms: seq<Mat3>, rlat: Mat3)
    requires |kpts| > 0 && Expandable(kpts, syms, rlat)
    ensures SumReals(ExpansionOf(kpts, syms, rlat).weights) == 1.0
  {
    ExpansionListing(kpts, syms, rlat);
    WeightsTotal(Orbits(kpts, syms, rlat));
  }

  /** A weight is the orbit's share of the full list. */
  lemma WeightShare(orbits: seq<Orbit>, nk: nat)
    requires AllConsistent(orbits) && SumSizes(orbits) > 0 && nk < |orbits|
    ensures var l := ListAll(orbits);
            Weights(orbits)[nk] == Count(l.kpoints, nk) as real / |l.kpoints| as real
  {
    ListAllCount(orbits, nk);
  }

  /** The weight of an irreducible point is the share of the full list that
      unfolds from it, and it is positive. */
  lemma WeightIsShare(kpts: seq<Vec3>, syms: seq<Mat3>, rlat: Mat3, nk: nat)
    requires nk < |kpts| && Expandable(kpts, syms, rlat)
    ensures var e := ExpansionOf(kpts, syms, rlat);
            e.weights[nk] == Count(e.kpointsIndexes, nk) as real / |e.kpointsIndexes| as real
            && e.weights[nk] > 0.0
  {
    var orbits := Orbits(kpts, syms, rlat);
    ExpansionListing(kpts, syms, rlat);
    WeightShare(orbits, nk);
    OrbitEntries(kpts[nk], syms, rlat);
    var e := ExpansionOf(kpts, syms, rlat);
    assert e.weights[nk] == |orbits[nk].symmetries| as real / SumSizes(orbits) as real;
    DivPositive(|orbits[nk].symmetries| as real, SumSizes(orbits) as real);
  }

  /** 0, 1, ..., n-1. */
  function Range(n: nat): (r: seq<nat>)
    ensures |r| == n && forall i :: 0 <= i < n ==> r[i] == i
  {
    if n == 0 then [] else Range(n - 1) + [n - 1]
  }

  /** Orbits of one entry each, from symmetry 0, list the points themselves. */
  lemma {:induction false} SingletonsListed(orbits: seq<Orbit>, kpts: seq<Vec3>)
    requires AllConsistent(orbits) && |orbits| == |kpts|
    requires forall nk :: 0 <= nk < |orbits| ==> orbits[nk].symmetries == [0] && orbits[nk].points == [kpts[nk]]
    ensures ListAll(orbits) == Listing(kpts, Range(|kpts|), Repeat<nat>(0, |kpts|))
  {
    if orbits != [] {
      var m := |orbits| - 1;
      assert AllConsistent(orbits[..m]);
      SingletonsListed(orbits[..m], kpts[..m]);
      ListAllLast(orbits);
      assert orbits[m].symmetries == [0];
      assert kpts == kpts[..m] + [kpts[m]];
    }
  }

  /** The identity leaves every vector as it is. */
  lemma IdentityImage(k: Vec3)
    ensures MatVec(Identity, k) == k
  {
  }

  /** Under the identity alone the orbit of k is k itself, from symmetry 0. */
  lemma IdentityOrbit(k: Vec3, rlat: Mat3)
    requires Det(rlat) != 0.0
    ensures OrbitOf(k, [Identity], rlat).symmetries == [0] && OrbitOf(k, [Identity], rlat).points == [k]
  {
    OrbitEntries(k, [Identity], rlat);
    IdentityImage(k);
  }

  /** With only the identity the full zone is the irreducible list itself,
      every entry from symmetry 0, and all points weigh the same. */
  lemma IdentityOnly(kpts: seq<Vec3>, rlat: Mat3)
    requires |kpts| > 0 && Det(rlat) != 0.0
    ensures var e := ExpansionOf(kpts, [Identity], rlat);
            e.kpointsFull == kpts && e.kpointsIndexes == Range(|kpts|)
            && e.symmetryIndexes == Repeat<nat>(0, |kpts|)
            && forall nk :: 0 <= nk < |kpts| ==> e.weights[nk] == 1.0 / |kpts| as real
  {
    IdentityOrbits(kpts, rlat);
    SingletonExpansion(kpts, [Identity], rlat);
  }

  /** When every orbit is its own point, from symmetry 0, the expansion is
      the irreducible list itself with equal weights. */
  lemma {:induction false} SingletonExpansion(kpts: seq<Vec3>, syms: seq<Mat3>, rlat: Mat3)
    requires |kpts| > 0 && Expandable(kpts, syms, rlat)
    requires forall nk :: 0 <= nk < |kpts| ==>
               Orbits(kpts, syms, rlat)[nk].symmetries == [0] && Orbits(kpts, syms, rlat)[nk].points == [kpts[nk]]
    ensures var e := ExpansionOf(kpts, syms, rlat);
            e.kpointsFull == kpts && e.kpointsIndexes == Range(|kpts|)
            && e.symmetryIndexes == Repeat<nat>(0, |kpts|)
            && forall nk :: 0 <= nk < |kpts| ==> e.weights[nk] == 1.0 / |kpts| as real
  {
    var orbits := Orbits(kpts, syms, rlat);
    ExpansionListing(kpts, syms, rlat);
    SingletonsListed(orbits, kpts);
    EqualWeights(orbits);
  }

  /** Under the identity alone every orbit is its own point, from symmetry 0. */
  lemma IdentityOrbits(kpts: seq<Vec3>, rlat: Mat3)
    requires Det(rlat) != 0.0
    ensures forall nk :: 0 <= nk < |kpts| ==>
              Orbits(kpts, [Identity], rlat)[nk].symmetries == [0]
              && Orbits(kpts, [Identity], rlat)[nk].points == [kpts[nk]]
  {
    forall nk | 0 <= nk < |kpts|
      ensures Orbits(kpts, [Identity], rlat)[nk].symmetries == [0]
      ensures Orbits(kpts, [Identity], rlat)[nk].points == [kpts[nk]]
    {
      IdentityOrbit(kpts[nk], rlat);
    }
  }

  /** Orbits of one entry each weigh the same. */
  lemma EqualWeights(orbits: seq<Orbit>)
    requires |orbits| > 0 && SumSizes(orbits) == |orbits|
    requires forall nk :: 0 <= nk < |orbits| ==> |orbits[nk].symmetries| == 1
    ensures forall nk :: 0 <= nk < |orbits| ==> Weights(orbits)[nk] == 1.0 / |orbits| as real
  {
  }

  const Inversion: Mat3 := Mat3(Vec3(-1.0, 0.0, 0.0), Vec3(0.0, -1.0, 0.0), Vec3(0.0, 0.0, -1.0))

  /** Two symmetries whose folded images coincide give one entry, from the
      first. */
  lemma ScanRepeatedPair(images: seq<Vec3>, zone: seq<Vec3>)
    requires |images| == |zone| == 2 && zone[0] == zone[1]
    ensures Scan(images, zone, 2) == Orbit([0], [images[0]], [zone[0]])
  {
    ScanStep(images, zone, 0);
    ScanStep(images, zone, 1);
    AllCloseReflexive(zone[0]);
    assert VecInList(zone[1], [zone[0]]);
  }

  /** The orbit of Gamma under the identity and the inversion is Gamma alone. */
  lemma GammaOrbit(rlat: Mat3)
    requires Det(rlat) != 0.0
    ensures OrbitOf(Zero, [Identity, Inversion], rlat).symmetries == [0]
    ensures OrbitOf(Zero, [Identity, Inversion], rlat).points == [Zero]
  {
    var syms := [Identity, Inversion];
    assert MatVec(Identity, Zero) == Zero && MatVec(Inversion, Zero) == Zero;
    var images, zone := ImagesOf(Zero, syms), ZonePoints(Zero, syms, rlat);
    assert zone[0] == zone[1];
    ScanRepeatedPair(images, zone);
  }

  /** Gamma with the identity and the inversion: both images are Gamma, so
      the inversion is dropped and Gamma keeps the whole weight. */
  lemma GammaWithInversion(rlat: Mat3)
    requires Det(rlat) != 0.0
    ensures ExpansionOf([Zero], [Identity, Inversion], rlat) == Expansion([Zero], [0], [0], [1.0])
  {
    var syms := [Identity, Inversion];
    var o := OrbitOf(Zero, syms, rlat);
    GammaOrbit(rlat);
    assert Orbits([Zero], syms, rlat) == [o];
    SingleOrbit(o);
    ExpansionListing([Zero], syms, rlat);
    assert Repeat<nat>(0, 1) == [0];
  }

  /** Two symmetries whose folded images are not close give two entries. */
  lemma ScanDistinctPair(images: seq<Vec3>, zone: seq<Vec3>)
    requires |images| == |zone| == 2 && !AllClose(zone[1], zone[0])
    ensures Scan(images, zone, 2) == Orbit([0, 1], images, zone)
  {
    ScanStep(images, zone, 0);
    ScanStep(images, zone, 1);
    assert !VecInList(zone[1], [zone[0]]);
    assert [images[0]] + [images[1]] == images && [zone[0]] + [zone[1]] == zone;
  }

  /** A witness on one concrete input, not a general property: the reduced
      points (0.3, 0, 0) and (-0.3, 0, 0) fold to 0.300001 and 0.700001
      along the first axis, which are not close. PairWithInversion rests
      on it. */
  lemma InversionFolds()
    ensures !AllClose(Fold(Vec3(-0.3, 0.0, 0.0)), Fold(Vec3(0.3, 0.0, 0.0)))
  {
    assert (-0.3 + Atol).Floor == -1;
    assert (0.3 + Atol).Floor == 0;
    assert Fold(Vec3(-0.3, 0.0, 0.0)).x == 0.700001;
    assert Fold(Vec3(0.3, 0.0, 0.0)).x == 0.300001;
  }

  /** The point with reduced coordinates (0.3, 0, 0), under the identity and
      the inversion, in any invertible reciprocal lattice: the images fold to
      0.300001 and 0.700001 along the first axis, so both are kept, as two
      entries of irreducible point 0, and that point's single weight is the
      whole 1.0. The weights are per irreducible point, not per full-zone
      point. */
  lemma PairWithInversion(rlat: Mat3)
    requires Det(rlat) != 0.0
    ensures var k := Combine(Vec3(0.3, 0.0, 0.0), rlat);
            ExpansionOf([k], [Identity, Inversion], rlat) == Expansion([k, Neg(k)], [0, 0], [0, 1], [1.0])
  {
    var k, syms := Combine(Vec3(0.3, 0.0, 0.0), rlat), [Identity, Inversion];
    var o := OrbitOf(k, syms, rlat);
    PairOrbit(rlat);
    assert Orbits([k], syms, rlat) == [o];
    SingleOrbit(o);
    ExpansionListing([k], syms, rlat);
    assert Repeat<nat>(0, 2) == [0, 0];
  }

  /** The orbit of the point with reduced coordinates (0.3, 0, 0) under the
      identity and the inversion keeps both images. */
  lemma PairOrbit(rlat: Mat3)
    requires Det(rlat) != 0.0
    ensures var k := Combine(Vec3(0.3, 0.0, 0.0), rlat);
            OrbitOf(k, [Identity, Inversion], rlat).symmetries == [0, 1]
            && OrbitOf(k, [Identity, Inversion], rlat).points == [k, Neg(k)]
  {
    var red, minusRed := Vec3(0.3, 0.0, 0.0), Vec3(-0.3, 0.0, 0.0);
    var k, syms := Combine(red, rlat), [Identity, Inversion];
    var kInv := Combine(minusRed, rlat);
    assert kInv == Neg(k);
    assert MatVec(Identity, k) == k && MatVec(Inversion, k) == kInv;
    SolveCombine(rlat, red);
    SolveCombine(rlat, minusRed);
    var images, zone := ImagesOf(k, syms), ZonePoints(k, syms, rlat);
    assert images == [k, kInv];
    assert zone[0] == Fold(red) && zone[1] == Fold(minusRed);
    InversionFolds();
    ScanDistinctPair(images, zone);
  }

  /** A single orbit is listed as it is and keeps the whole weight. */
  lemma SingleOrbit(o: Orbit)
    requires Consistent(o) && |o.symmetries| > 0
    ensures ListAll([o]) == Listing(o.points, Repeat<nat>(0, |o.symmetries|), o.symmetries)
    ensures SumSizes([o]) == |o.symmetries| && Weights([o]) == [1.0]
  {
    ListAllStep([], o);
    assert [] + [o] == [o];
    assert [o][..0] == [];
    DivSelf(|o.symmetries| as real);
  }
}
