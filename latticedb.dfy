/** The YamboLatticeDB object: the lattice data read from a yambo ns.db1
    database, the quantities process derives from it, and the full-zone
    k-points expandKpoints unfolds from the irreducible ones. Every method
    stores into the object's fields as it goes, so a method that stops with
    an error leaves the fields it had already set. */
module LatticeDatabase {
  import opened Vectors
  import opened Errors
  import opened Coordinates
  import opened Atoms
  import opened Symmetry
  import opened Expansion

  /** The variables of the database that readDB uses, as the netCDF library
      hands them over: LATTICE_VECTORS (one lattice vector per column),
      LATTICE_PARAMETER, N_ATOMS and atomic_numbers (stored as floats),
      the first slice of ATOM_POS, SYMMETRY, K-POINTS (one point per entry)
      and DIMENSIONS. */
  datatype Database = Database(latticeVectors: Mat3, latticeParameter: Vec3, nAtoms: seq<real>,
                               atomicNumbers: seq<real>, atomPositions: seq<Vec3>, symmetry: seq<Mat3>,
                               kpoints: seq<Vec3>, dimensions: seq<real>)

  /** `int(x)` and `astype(int)`: truncation toward zero. */
  function Trunc(x: real): (n: int)
    ensures x >= 0.0 ==> 0 <= n && n as real <= x < n as real + 1.0
    ensures x < 0.0 ==> n <= 0 && n as real - 1.0 < x <= n as real
  {
    if x >= 0.0 then x.Floor else -((-x).Floor)
  }

  /** `astype(int)` on an array. */
  function TruncAll(xs: seq<real>): (ns: seq<int>)
    ensures |ns| == |xs|
    ensures forall i :: 0 <= i < |xs| ==> ns[i] == Trunc(xs[i])
  {
    seq(|xs|, i requires 0 <= i < |xs| => Trunc(xs[i]))
  }

  predicate NonZero(v: Vec3) {
    v.x != 0.0 && v.y != 0.0 && v.z != 0.0
  }

  /** Componentwise product, the inverse of the componentwise division. */
  function Times(v: Vec3, w: Vec3): Vec3 {
    Vec3(v.x * w.x, v.y * w.y, v.z * w.z)
  }

  /** `[k/alat for k in iku_kpoints]`: the k-points from yambo's internal
      units to cartesian coordinates, dividing each component by the lattice
      parameter along it. A zero lattice parameter makes numpy produce
      infinities; that is an error here. */
  function CartesianKpoints(iku: seq<Vec3>, alat: Vec3): (r: Result<seq<Vec3>>)
    ensures r.Err? <==> |iku| > 0 && !NonZero(alat)
    ensures r.Err? ==> r.error == ZeroLatticeParameter
    ensures r.Ok? ==> |r.value| == |iku|
    ensures r.Ok? ==> forall i :: 0 <= i < |iku| ==> Times(r.value[i], alat) == iku[i]
  {
    if |iku| == 0 then Ok([])
    else if !NonZero(alat) then Err(ZeroLatticeParameter)
    else
      var car := seq(|iku|, i requires 0 <= i < |iku| => Vec3(iku[i].x / alat.x, iku[i].y / alat.y, iku[i].z / alat.z));
      assert forall i :: 0 <= i < |iku| ==> Times(car[i], alat) == iku[i] by {
        forall i | 0 <= i < |iku|
          ensures Times(car[i], alat) == iku[i]
        {
          DivTimes(iku[i].x, alat.x);
          DivTimes(iku[i].y, alat.y);
          DivTimes(iku[i].z, alat.z);
        }
      }
      Ok(car)
  }

  /** The python object. Its fields are those readDB, process and
      expandKpoints set; `converted` records that process got as far as
      rlat and car_kpoints, which expandKpoints reads. */
  class LatticeDB {
    var lat: Mat3
    var alat: Vec3
    var atomicNumbers: seq<int>
    var atomicPositions: seq<Vec3>
    var atomicMasses: seq<real>
    var symCar: seq<Mat3>
    var ikuKpoints: seq<Vec3>
    var temperature: real
    var nelectrons: real
    var nkpoints: int
    var spin: int
    var timeRev: real
    var rlat: Mat3
    var nsym: nat
    var carKpoints: seq<Vec3>
    var redKpoints: seq<Vec3>
    var symRec: seq<Mat3>
    var timeRevList: seq<bool>
    var fullNkpoints: nat
    var weightsIbz: seq<real>
    var kpointsIndexes: seq<nat>
    var symmetryIndexes: seq<nat>
    ghost var converted: bool

    /** An object with nothing read yet. */
    constructor ()
      ensures !converted
    {
      converted := false;
    }

    /** Whether process gets past rlat and car_kpoints on the current data. */
    ghost predicate Converts()
      reads this
    {
      RecLat(lat).Ok? && CartesianKpoints(ikuKpoints, alat).Ok?
    }

    /** The fields readDB stores, other than `nkpoints` (which process
      stores again). */
    ghost function Header(): (h: ReadFields)
      reads this`lat, this`alat, this`atomicNumbers, this`atomicPositions, this`atomicMasses, this`symCar,
            this`ikuKpoints, this`temperature, this`nelectrons, this`spin, this`timeRev
      ensures h.lat == lat && h.symCar == symCar && h.ikuKpoints == ikuKpoints
    {
      ReadFields(lat, alat, atomicNumbers, atomicPositions, atomicMasses, symCar, ikuKpoints, temperature,
                 nelectrons, spin, timeRev)
    }

    /** The fields process derives from the lattice and the symmetries,
      other than the k-point lists, as they stand once it got through. */
    ghost predicate Derived()
      reads this`lat, this`symCar, this`ikuKpoints, this`timeRev, this`rlat, this`nsym, this`nkpoints,
            this`symRec, this`timeRevList
    {
      RecLat(lat) == Ok(rlat) && nsym == |symCar| && nkpoints == |ikuKpoints|
      && |symRec| == nsym && (forall n :: 0 <= n < nsym ==> InverseTransposeOf(symCar[n], symRec[n]))
      && |timeRevList| == nsym && (forall i :: 0 <= i < nsym ==> timeRevList[i] == TimeReversed(i, nsym, timeRev))
    }

    /** Process got through: Derived, and the k-points in cartesian and
      reduced coordinates converted from the irreducible ones. */
    ghost predicate Processed()
      reads this
    {
      Derived() && converted && CartesianKpoints(ikuKpoints, alat).Ok?
      && carKpoints == CartesianKpoints(ikuKpoints, alat).value && CarRed(carKpoints, rlat) == Ok(redKpoints)
    }

    /** The k-point fields hold the reference expansion of kpts, the
      irreducible points in cartesian coordinates, and `full_nkpoints` counts
      the full-zone points. */
    ghost predicate ExpandedFrom(kpts: seq<Vec3>)
      reads this
    {
      Expandable(kpts, symCar, rlat)
      && var e := ExpansionOf(kpts, symCar, rlat);
         carKpoints == e.kpointsFull && kpointsIndexes == e.kpointsIndexes
         && symmetryIndexes == e.symmetryIndexes && weightsIbz == e.weights
         && fullNkpoints == |carKpoints|
    }

    /** The DIMENSIONS entries readDB reads, in order: temperature (13),
      number of electrons (14), number of k-points (6), spin (11) and time
      reversal (9). An index past the end is an IndexError after the entries
      before it have been stored. */
    method ReadDimensions(dimensions: seq<real>) returns (r: Result<()>)
      modifies this`temperature, this`nelectrons, this`nkpoints, this`spin, this`timeRev
      ensures r.Err? <==> |dimensions| < 15
      ensures r.Err? ==> r.error == MissingDimension(if |dimensions| < 14 then 13 else 14)
      ensures |dimensions| < 14 ==> temperature == old(temperature)
      ensures |dimensions| >= 14 ==> temperature == dimensions[13]
      ensures r.Err? ==>
                nelectrons == old(nelectrons) && nkpoints == old(nkpoints) && spin == old(spin)
                && timeRev == old(timeRev)
      ensures r.Ok? ==>
                nelectrons == dimensions[14] && nkpoints == Trunc(dimensions[6])
                && spin == Trunc(dimensions[11]) && timeRev == dimensions[9]
    {
      if |dimensions| <= 13 {
        return Err(MissingDimension(13));
      }
      temperature := dimensions[13];
      if |dimensions| <= 14 {
        return Err(MissingDimension(14));
      }
      nelectrons := dimensions[14];
      nkpoints := Trunc(dimensions[6]);
      spin := Trunc(dimensions[11]);
      timeRev := dimensions[9];
      return Ok(());
    }

    /** The atomic numbers, one per species, repeated for every atom of
      their species (IndexError for a species without an atomic number),
      then the mass of each atom (KeyError for an element the table
      lacks). */
    method ExpandSpecies(natoms: seq<int>, massTable: map<int, real>) returns (r: Result<()>)
      modifies this`atomicNumbers, this`atomicMasses
      ensures var flat := FlattenAtomicNumbers(old(atomicNumbers), natoms);
              (flat.Err? ==> r == Err(flat.error) && unchanged(this))
              && (flat.Ok? ==>
                    atomicNumbers == flat.value
                    && (AtomicMasses(flat.value, massTable).Err? ==>
                          r == Err(AtomicMasses(flat.value, massTable).error) && atomicMasses == old(atomicMasses))
                    && (AtomicMasses(flat.value, massTable).Ok? ==>
                          r == Ok(()) && atomicMasses == AtomicMasses(flat.value, massTable).value))
    {
      var flat := FlattenAtomicNumbers(atomicNumbers, natoms);
      if flat.Err? {
        return Err(flat.error);
      }
      atomicNumbers := flat.value;
      var masses := AtomicMasses(atomicNumbers, massTable);
      if masses.Err? {
        return Err(masses.error);
      }
      atomicMasses := masses.value;
      return Ok(());
    }

    /** readDB: the arrays of the database, then the DIMENSIONS entries,
      then the atomic numbers repeated per atom and their masses. */
    method ReadDB(db: Database, massTable: map<int, real>) returns (r: Result<()>)
      modifies this`lat, this`alat, this`atomicNumbers, this`atomicPositions, this`atomicMasses, this`symCar,
               this`ikuKpoints, this`temperature, this`nelectrons, this`nkpoints, this`spin, this`timeRev
      ensures lat == Transpose(db.latticeVectors) && alat == db.latticeParameter
      ensures atomicPositions == db.atomPositions && symCar == db.symmetry && ikuKpoints == db.kpoints
      ensures |db.dimensions| < 15 ==>
                r == Err(MissingDimension(if |db.dimensions| < 14 then 13 else 14))
                && atomicNumbers == TruncAll(db.atomicNumbers)
                && (if |db.dimensions| == 14 then temperature == db.dimensions[13] else temperature == old(temperature))
                && nelectrons == old(nelectrons) && nkpoints == old(nkpoints) && spin == old(spin)
                && timeRev == old(timeRev) && atomicMasses == old(atomicMasses)
      ensures |db.dimensions| >= 15 ==>
                temperature == db.dimensions[13] && nelectrons == db.dimensions[14]
                && nkpoints == Trunc(db.dimensions[6]) && spin == Trunc(db.dimensions[11])
                && timeRev == db.dimensions[9]
      ensures |db.dimensions| >= 15 ==>
                var flat := FlattenAtomicNumbers(TruncAll(db.atomicNumbers), TruncAll(db.nAtoms));
                (flat.Err? ==> r == Err(flat.error) && atomicNumbers == TruncAll(db.atomicNumbers)
                               && atomicMasses == old(atomicMasses))
                && (flat.Ok? ==> atomicNumbers == flat.value
                                 && (AtomicMasses(flat.value, massTable).Err? ==>
                                       r == Err(AtomicMasses(flat.value, massTable).error)
                                       && atomicMasses == old(atomicMasses))
                                 && (AtomicMasses(flat.value, massTable).Ok? ==>
                                       r == Ok(()) && atomicMasses == AtomicMasses(flat.value, massTable).value))
      ensures r.Err? <==> Read(db, massTable).Err?
      ensures r.Err? ==> r.error == Read(db, massTable).error
      ensures r.Ok? ==> Read(db, massTable) == Ok(Header())
    {
      lat := Transpose(db.latticeVectors);
      alat := db.latticeParameter;
      var natoms := TruncAll(db.nAtoms);
      atomicNumbers := TruncAll(db.atomicNumbers);
      atomicPositions := db.atomPositions;
      symCar := db.symmetry;
      ikuKpoints := db.kpoints;
      r := ReadDimensions(db.dimensions);
      if r.Err? {
        return;
      }
      r := ExpandSpecies(natoms, massTable);
    }

    /** The first block of process: the reciprocal lattice and the number
      of symmetries, then the k-points from internal units to cartesian
      coordinates, then to reduced coordinates, and their number. */
    method ConvertKpoints() returns (r: Result<()>)
      modifies this`rlat, this`nsym, this`carKpoints, this`redKpoints, this`nkpoints, this`converted
      ensures RecLat(lat).Err? ==> r == Err(DegenerateLattice) && unchanged(this)
      ensures RecLat(lat).Ok? ==> rlat == RecLat(lat).value && nsym == |symCar|
      ensures RecLat(lat).Ok? && CartesianKpoints(ikuKpoints, alat).Err? ==>
                r == Err(ZeroLatticeParameter)
                && unchanged(this`carKpoints, this`redKpoints, this`nkpoints, this`converted)
      ensures Converts() ==> converted && carKpoints == CartesianKpoints(ikuKpoints, alat).value
      ensures Converts() && CarRed(carKpoints, rlat).Err? ==>
                r == Err(SingularBasis) && unchanged(this`redKpoints, this`nkpoints)
      ensures Converts() && CarRed(carKpoints, rlat).Ok? ==>
                r == Ok(()) && redKpoints == CarRed(carKpoints, rlat).value && nkpoints == |carKpoints|
      ensures unchanged(this`lat, this`alat, this`atomicNumbers, this`atomicPositions, this`atomicMasses,
                        this`symCar, this`ikuKpoints, this`temperature, this`nelectrons, this`spin, this`timeRev)
    {
      var rec := RecLat(lat);
      if rec.Err? {
        return Err(DegenerateLattice);
      }
      rlat := rec.value;
      nsym := |symCar|;
      var car := CartesianKpoints(ikuKpoints, alat);
      if car.Err? {
        return Err(car.error);
      }
      carKpoints := car.value;
      converted := true;
      var red := CarRed(carKpoints, rlat);
      if red.Err? {
        return Err(SingularBasis);
      }
      redKpoints := red.value;
      nkpoints := |carKpoints|;
      return Ok(());
    }

    /** The second and third blocks of process: `sym_rec`, a buffer of one
      zero matrix per symmetry filled with the inverse-transposes in order
      until a singular symmetry stops it, then `time_rev_list`. */
    method InvertSymmetries() returns (r: Result<()>)
      modifies this`symRec, this`timeRevList
      ensures |symRec| == |symCar|
      ensures r.Err? <==> exists n :: 0 <= n < |symCar| && Det(symCar[n]) == 0.0
      ensures r.Err? ==>
                r.error.SingularSymmetry? && r.error.index < |symCar|
                && Det(symCar[r.error.index]) == 0.0
                && (forall n :: 0 <= n < r.error.index ==>
                      Det(symCar[n]) != 0.0 && InverseTransposeOf(symCar[n], symRec[n]))
                && (forall n :: r.error.index <= n < |symCar| ==> symRec[n] == ZeroMatrix)
                && timeRevList == old(timeRevList)
      ensures r.Err? ==> r.error == SingularSymmetry(FirstSingular(symCar))
      ensures r.Ok? ==>
                (forall n :: 0 <= n < |symCar| ==> InverseTransposeOf(symCar[n], symRec[n]))
                && |timeRevList| == |symCar|
                && (forall i :: 0 <= i < |symCar| ==> timeRevList[i] == TimeReversed(i, |symCar|, timeRev))
      ensures unchanged(this`lat, this`alat, this`atomicNumbers, this`atomicPositions, this`atomicMasses,
                        this`symCar, this`ikuKpoints, this`temperature, this`nelectrons, this`spin, this`timeRev)
    {
      var filled, inverted := ReciprocalSymmetries(symCar);
      symRec := filled;
      if inverted.Err? {
        return Err(inverted.error);
      }
      timeRevList := TimeReversalList(|symCar|, timeRev);
      return Ok(());
    }

    /** process: the reciprocal lattice and the number of symmetries, the
      k-points in cartesian and reduced coordinates and their number, the
      reciprocal form of every symmetry, and which symmetries carry time
      reversal. Each step stores its result before the next one can fail. */
    method Process() returns (r: Result<()>)
      modifies this`rlat, this`nsym, this`carKpoints, this`redKpoints, this`nkpoints, this`symRec,
               this`timeRevList, this`converted
      ensures RecLat(lat).Err? ==> r == Err(DegenerateLattice) && unchanged(this)
      ensures RecLat(lat).Ok? ==> rlat == RecLat(lat).value && Dual(lat, rlat) && nsym == |symCar|
      ensures RecLat(lat).Ok? && CartesianKpoints(ikuKpoints, alat).Err? ==>
                r == Err(ZeroLatticeParameter)
                && unchanged(this`carKpoints, this`redKpoints, this`nkpoints, this`symRec, this`timeRevList,
                             this`converted)
      ensures Converts() ==> converted && carKpoints == CartesianKpoints(ikuKpoints, alat).value
      ensures Converts() && CarRed(carKpoints, rlat).Err? ==>
                r == Err(SingularBasis)
                && unchanged(this`redKpoints, this`nkpoints, this`symRec, this`timeRevList)
      ensures Converts() && CarRed(carKpoints, rlat).Ok? ==>
                redKpoints == CarRed(carKpoints, rlat).value && nkpoints == |carKpoints|
                && |symRec| == nsym
                && (r.Err? <==> exists n :: 0 <= n < nsym && Det(symCar[n]) == 0.0)
      ensures Converts() && CarRed(carKpoints, rlat).Ok? && r.Err? ==>
                r.error.SingularSymmetry? && r.error.index < nsym
                && Det(symCar[r.error.index]) == 0.0
                && (forall n :: 0 <= n < r.error.index ==>
                      Det(symCar[n]) != 0.0 && InverseTransposeOf(symCar[n], symRec[n]))
                && (forall n :: r.error.index <= n < nsym ==> symRec[n] == ZeroMatrix)
                && timeRevList == old(timeRevList)
      ensures r.Ok? ==>
                Converts() && CarRed(carKpoints, rlat).Ok? && |symRec| == nsym
                && (forall n :: 0 <= n < nsym ==> InverseTransposeOf(symCar[n], symRec[n]))
                && |timeRevList| == nsym
                && (forall i :: 0 <= i < nsym ==> timeRevList[i] == TimeReversed(i, nsym, timeRev))
      ensures r == Processing(lat, alat, ikuKpoints, symCar)
      ensures r.Ok? ==> Processed()
      ensures Header() == old(Header())
    {
      r := ConvertKpoints();
      if r.Err? {
        HeaderKept();
        return;
      }
      assert Converts() && CarRed(carKpoints, rlat).Ok?;
      r := InvertSymmetries();
      if r.Ok? {
        assert FirstSingular(symCar) == |symCar| && r.value == ();
      } else {
        assert FirstSingular(symCar) < |symCar|;
      }
      HeaderKept();
    }

    /** A step that leaves every field readDB stores but `nkpoints` leaves
      their record as it was. */
    twostate lemma HeaderKept()
      requires unchanged(this`lat, this`alat, this`atomicNumbers, this`atomicPositions, this`atomicMasses,
                         this`symCar, this`ikuKpoints, this`temperature, this`nelectrons, this`spin, this`timeRev)
      ensures Header() == old(Header())
    {
    }

    /** A step that leaves the fields process derives alone leaves Derived
      as it was. */
    twostate lemma DerivedKept()
      requires unchanged(this`lat, this`symCar, this`ikuKpoints, this`timeRev, this`rlat, this`nsym, this`nkpoints,
                         this`symRec, this`timeRevList)
      ensures Derived() == old(Derived())
    {
    }

    /** expandKpoints: the orbit of every irreducible point, then
      `full_nkpoints`, then the weights in an array of `nkpoints` entries,
      then the full-zone lists replace the irreducible ones. It follows the
      reference ExpansionResult, errors included; the fields it sets before
      failing keep their new values. */
    method ExpandKpoints() returns (r: Result<()>)
      requires converted
      modifies this`fullNkpoints, this`weightsIbz, this`carKpoints, this`redKpoints, this`kpointsIndexes,
               this`symmetryIndexes
      ensures var e := ExpansionResult(old(carKpoints), symCar, rlat, nkpoints);
              (r.Err? <==> e.Err?) && (r.Err? ==> r.error == e.error)
      ensures FullCount(old(carKpoints), symCar, rlat).Ok? ==>
                fullNkpoints == FullCount(old(carKpoints), symCar, rlat).value
      ensures FullCount(old(carKpoints), symCar, rlat).Err? ==> fullNkpoints == old(fullNkpoints)
      ensures r.Err? ==>
                unchanged(this`weightsIbz, this`carKpoints, this`redKpoints, this`kpointsIndexes,
                          this`symmetryIndexes)
      ensures r.Ok? ==>
                var e := ExpansionResult(old(carKpoints), symCar, rlat, nkpoints).value;
                carKpoints == e.kpointsFull && kpointsIndexes == e.kpointsIndexes
                && symmetryIndexes == e.symmetryIndexes && weightsIbz == e.weights
                && fullNkpoints == |carKpoints| && CarRed(carKpoints, rlat) == Ok(redKpoints)
      ensures Header() == old(Header()) && Derived() == old(Derived())
    {
      var counted, e := Expand(carKpoints, symCar, rlat, nkpoints);
      if counted.Err? {
        return Err(counted.error);
      }
      SetFullCount(counted.value);
      if e.Err? {
        return Err(e.error);
      }
      StoreExpansion(e.value);
      return Ok(());
    }

    /** The `expand` branch of the constructor: on a processed database
      expandKpoints fails only when there are k-points and no symmetry, and
      otherwise leaves the full-zone expansion of the irreducible points. */
    method ExpandProcessed() returns (r: Result<()>)
      requires Processed()
      modifies this`fullNkpoints, this`weightsIbz, this`carKpoints, this`redKpoints, this`kpointsIndexes,
               this`symmetryIndexes
      ensures Header() == old(Header()) && Derived()
      ensures r.Err? <==> |old(carKpoints)| > 0 && |symCar| == 0
      ensures r.Err? ==> r.error == ZeroDivision
      ensures r.Ok? ==> ExpandedFrom(old(carKpoints)) && CarRed(carKpoints, rlat) == Ok(redKpoints)
    {
      ProcessedExpansion(carKpoints, symCar, rlat);
      r := ExpandKpoints();
    }

    /** Stores `full_nkpoints`. */
    method SetFullCount(n: nat)
      modifies this`fullNkpoints
      ensures fullNkpoints == n
      ensures unchanged(this`symCar, this`rlat, this`nkpoints)
      ensures Header() == old(Header()) && Derived() == old(Derived())
    {
      fullNkpoints := n;
      HeaderKept();
      DerivedKept();
    }

    /** Replaces the irreducible lists by the full-zone ones e, in
      cartesian and reduced coordinates, and stores the weights. */
    method StoreExpansion(e: Expansion)
      requires CarRed(e.kpointsFull, rlat).Ok?
      modifies this`weightsIbz, this`carKpoints, this`redKpoints, this`kpointsIndexes, this`symmetryIndexes
      ensures carKpoints == e.kpointsFull && kpointsIndexes == e.kpointsIndexes
              && symmetryIndexes == e.symmetryIndexes && weightsIbz == e.weights
              && CarRed(carKpoints, rlat) == Ok(redKpoints)
      ensures unchanged(this`symCar, this`rlat, this`nkpoints)
      ensures Header() == old(Header()) && Derived() == old(Derived())
    {
      var red := CarRed(e.kpointsFull, rlat);
      assert red == Ok(red.value);
      weightsIbz := e.weights;
      carKpoints := e.kpointsFull;
      redKpoints := red.value;
      kpointsIndexes := e.kpointsIndexes;
      symmetryIndexes := e.symmetryIndexes;
      HeaderKept();
      DerivedKept();
    }
  }

  /** The fields readDB stores when it gets through, other than `nkpoints`. */
  datatype ReadFields = ReadFields(lat: Mat3, alat: Vec3, atomicNumbers: seq<int>, atomicPositions: seq<Vec3>,
                                   atomicMasses: seq<real>, symCar: seq<Mat3>, ikuKpoints: seq<Vec3>,
                                   temperature: real, nelectrons: real, spin: int, timeRev: real)

  /** What readDB stores from db, or the first error it meets: a DIMENSIONS
      entry past the end, a species without an atomic number, an element
      without a mass. */
  function Read(db: Database, massTable: map<int, real>): (r: Result<ReadFields>)
    ensures r.Err? <==>
              |db.dimensions| < 15 || |db.nAtoms| > |db.atomicNumbers|
              || AtomicMasses(FlattenAtomicNumbers(TruncAll(db.atomicNumbers), TruncAll(db.nAtoms)).value,
                              massTable).Err?
    ensures r.Ok? ==>
              r.value.lat == Transpose(db.latticeVectors) && r.value.alat == db.latticeParameter
              && r.value.atomicPositions == db.atomPositions && r.value.symCar == db.symmetry
              && r.value.ikuKpoints == db.kpoints
              && r.value.temperature == db.dimensions[13] && r.value.nelectrons == db.dimensions[14]
              && r.value.spin == Trunc(db.dimensions[11]) && r.value.timeRev == db.dimensions[9]
              && FlattenAtomicNumbers(TruncAll(db.atomicNumbers), TruncAll(db.nAtoms)) == Ok(r.value.atomicNumbers)
              && AtomicMasses(r.value.atomicNumbers, massTable) == Ok(r.value.atomicMasses)
  {
    var flat := FlattenAtomicNumbers(TruncAll(db.atomicNumbers), TruncAll(db.nAtoms));
    if |db.dimensions| < 15 then Err(MissingDimension(if |db.dimensions| < 14 then 13 else 14))
    else if flat.Err? then Err(flat.error)
    else if AtomicMasses(flat.value, massTable).Err? then Err(AtomicMasses(flat.value, massTable).error)
    else
      Ok(ReadFields(Transpose(db.latticeVectors), db.latticeParameter, flat.value, db.atomPositions,
                    AtomicMasses(flat.value, massTable).value, db.symmetry, db.kpoints, db.dimensions[13],
                    db.dimensions[14], Trunc(db.dimensions[11]), db.dimensions[9]))
  }

  /** What process raises on the lattice, the lattice parameter, the
      irreducible k-points and the symmetries, in the order it meets the
      failures: a degenerate lattice, a zero lattice parameter, a singular
      reciprocal basis, the first singular symmetry. */
  function Processing(lat: Mat3, alat: Vec3, iku: seq<Vec3>, syms: seq<Mat3>): Result<()> {
    var car := CartesianKpoints(iku, alat);
    if RecLat(lat).Err? then Err(DegenerateLattice)
    else if car.Err? then Err(ZeroLatticeParameter)
    else if CarRed(car.value, RecLat(lat).value).Err? then Err(SingularBasis)
    else if FirstSingular(syms) < |syms| then Err(SingularSymmetry(FirstSingular(syms)))
    else Ok(())
  }

  /** What `YamboLatticeDB(..., expand=False)` raises on db: the errors of
      readDB, then those of process on what readDB stored. */
  function Construction(db: Database, massTable: map<int, real>): Result<()> {
    match Read(db, massTable)
    case Err(e) => Err(e)
    case Ok(h) => Processing(h.lat, h.alat, h.ikuKpoints, h.symCar)
  }

  /** What `YamboLatticeDB(..., expand)` raises: the errors of Construction,
      then, when expanding, ZeroDivisionError for k-points without any
      symmetry. */
  function Opening(db: Database, massTable: map<int, real>, expand: bool): Result<()> {
    if Construction(db, massTable).Err? then Construction(db, massTable)
    else if expand && |db.kpoints| > 0 && |db.symmetry| == 0 then Err(ZeroDivision)
    else Ok(())
  }

  /** With expand=False, the constructor fails exactly when readDB does,
      or on what readDB stored: a zero-volume cell, k-points with a zero
      lattice parameter component, or a singular symmetry. The error is the
      first of these, in that order. process's SingularBasis case never arises: the reciprocal
      lattice of a cell with nonzero volume has the inverse volume. The
      default expand=True can also fail with ZeroDivisionError; Opening and
      Open state that path. */
  lemma ConstructionFails(db: Database, massTable: map<int, real>)
    ensures var lat := Transpose(db.latticeVectors);
            Construction(db, massTable).Err? <==>
              Read(db, massTable).Err? || Det(lat) == 0.0
              || (|db.kpoints| > 0 && !NonZero(db.latticeParameter))
              || exists n :: 0 <= n < |db.symmetry| && Det(db.symmetry[n]) == 0.0
    ensures Read(db, massTable).Err? ==> Construction(db, massTable) == Err(Read(db, massTable).error)
    ensures var lat := Transpose(db.latticeVectors);
            Read(db, massTable).Ok? && Construction(db, massTable).Err? ==>
              Construction(db, massTable).error
              == if Det(lat) == 0.0 then DegenerateLattice
                 else if |db.kpoints| > 0 && !NonZero(db.latticeParameter) then ZeroLatticeParameter
                 else SingularSymmetry(FirstSingular(db.symmetry))
  {
    RecLatVolume(Transpose(db.latticeVectors));
  }

  /** `YamboLatticeDB(save, filename, expand=False)`: readDB, then process;
      the first error propagates. */
  method Load(db: Database, massTable: map<int, real>) returns (r: Result<LatticeDB>)
    ensures r.Err? <==> Construction(db, massTable).Err?
    ensures r.Err? ==> r.error == Construction(db, massTable).error
    ensures r.Ok? ==> fresh(r.value) && Read(db, massTable) == Ok(r.value.Header()) && r.value.Processed()
  {
    var d := new LatticeDB();
    var status := d.ReadDB(db, massTable);
    if status.Err? {
      assert Construction(db, massTable) == status;
      return Err(status.error);
    }
    status := d.Process();
    assert Construction(db, massTable) == status;
    if status.Err? {
      return Err(status.error);
    }
    return Ok(d);
  }

  /** `YamboLatticeDB(save, filename, expand)`: the object Load gives, then
      expandKpoints when expand is set. After process the weights array has
      one entry per irreducible point, so an expanded object holds exactly
      the reference expansion. */
  method Open(db: Database, massTable: map<int, real>, expand: bool) returns (r: Result<LatticeDB>)
    ensures r.Err? <==> Opening(db, massTable, expand).Err?
    ensures r.Err? ==> r.error == Opening(db, massTable, expand).error
    ensures r.Ok? ==>
              fresh(r.value) && r.value.converted && Read(db, massTable) == Ok(r.value.Header()) && r.value.Derived()
              && CartesianKpoints(db.kpoints, db.latticeParameter).Ok?
              && CarRed(r.value.carKpoints, r.value.rlat) == Ok(r.value.redKpoints)
    ensures r.Ok? && !expand ==> r.value.carKpoints == CartesianKpoints(db.kpoints, db.latticeParameter).value
    ensures r.Ok? && expand ==> r.value.ExpandedFrom(CartesianKpoints(db.kpoints, db.latticeParameter).value)
  {
    r := Load(db, massTable);
    if r.Err? || !expand {
      return;
    }
    var status := r.value.ExpandProcessed();
    if status.Err? {
      return Err(status.error);
    }
  }
}
