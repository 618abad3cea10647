# yambopy lattice database, modelled in Dafny

This project models `YamboLatticeDB` from yambopy (`yambopy/dbs/latticedb.py`).
The class reads the lattice section of a yambo `ns.db1` database and derives
from it:

- the reciprocal lattice;
- the k-points in cartesian and reduced coordinates;
- the reciprocal form of every symmetry operation;
- which symmetries carry time reversal;
- the expansion of the irreducible k-points into the full Brillouin zone,
  with the weight of every irreducible point.

The module-level helpers are modelled as well: `vec_in_list`, `red_car`,
`car_red` and `rec_lat`.

Modules:

- `Vectors`: 3-vectors and 3×3 matrices over exact reals, stored by rows as
  numpy indexes them.
- `Errors`: the exceptions the code can raise, as a `LatticeError`, and a
  `Result` type.
- `Coordinates`: the helpers, `np.allclose`, `np.linalg.solve`,
  `np.linalg.inv` and the `% 1` folding.
- `Lists`: Python's `[x] * n` and strictly increasing index lists.
- `Atoms`: the per-atom lists readDB builds from the per-species ones.
- `Symmetry`: the `sym_rec` and `time_rev_list` loops of process.
- `Expansion`: expandKpoints as loops, proved equal to a reference definition
  (`Scan`, `ListAll`, `Weights`, `ExpansionOf`, `ExpansionResult`).
- `ExpansionProperties`: what the expansion guarantees, proved about that
  reference definition.
- `LatticeDatabase`: the class `LatticeDB`, whose methods update its fields
  in place as the Python methods do, and the constructor call as `Load`
  (`expand=False`) and `Open`.

Every step stores its result in a field before the next step can fail. The
contracts therefore state the partial state an exception leaves behind.

Three points a reader might expect otherwise:

- `time_rev` is read from the floating-point `DIMENSIONS` array, so
  `nsym/(time_rev+1)` is a true division, not an integer one. With time
  reversal on and an odd `nsym`, the middle symmetry is not flagged
  (`Symmetry.TimeReversedUpperHalf`).
- The weights are per irreducible point, not per full-zone point. The point
  with reduced coordinates (0.3, 0, 0), under the identity and the
  inversion, expands to two full-zone points, but it carries the single
  weight 1.0, not two weights of 0.5
  (`ExpansionProperties.PairWithInversion`).
- The expansion applies the cartesian symmetries `sym_car` to the cartesian
  k-points. The reciprocal ones, `sym_rec`, are not used.

## Model

| member | source | states |
|---|---|---|
| Coordinates.VecInList | yambopy/dbs/latticedb.py:13-16 | true exactly when some entry of the list is allclose to the vector; false on an empty list |
| Coordinates.AllCloseNotSymmetric | yambopy/dbs/latticedb.py:16 | the closeness test scales its tolerance with the second vector only, so it is not symmetric; a concrete pair shows it |
| Coordinates.RedCar | yambopy/dbs/latticedb.py:18-22 | one cartesian vector per reduced one, in order; each is the combination of the lattice rows with the reduced coefficients |
| Coordinates.Solve | yambopy/dbs/latticedb.py:28 | LinAlgError exactly when the basis is singular; otherwise the lattice rows combined with the result give back the cartesian vector |
| Coordinates.CarRed | yambopy/dbs/latticedb.py:24-28 | an error exactly when the list is non-empty and the basis singular; otherwise one reduced vector per input, which maps back onto its input |
| Coordinates.CarRedOfRedCar | yambopy/dbs/latticedb.py:18-28 | for a non-singular lattice, car_red after red_car returns the reduced coordinates unchanged |
| Coordinates.RedCarOfCarRed | yambopy/dbs/latticedb.py:18-28 | for a non-singular lattice, car_red succeeds and red_car after it returns the cartesian vectors unchanged |
| Coordinates.RecLat | yambopy/dbs/latticedb.py:30-39 | fails exactly on a zero-volume cell; otherwise the result is dual to the lattice (row i of the lattice dotted with row j of the result is 1 if i == j, else 0) |
| Coordinates.RecLatVolume | yambopy/dbs/latticedb.py:30-39 | the reciprocal lattice's determinant times the cell volume is 1, so the reciprocal lattice is never singular and car_red against it always succeeds |
| Coordinates.RecLatDual | yambopy/dbs/latticedb.py:34-39 | the cross products divided by the cell volume form the dual basis |
| Coordinates.Inverse | yambopy/dbs/latticedb.py:94 | LinAlgError exactly when the matrix is singular; otherwise a two-sided inverse |
| Coordinates.Fold | yambopy/dbs/latticedb.py:128 | each folded reduced coordinate lies in [0, 1) and differs from the coordinate plus atol by an integer |
| Coordinates.Frac | yambopy/dbs/latticedb.py:128 | x % 1 lies in [0, 1) and differs from x by an integer |
| Lists.Repeat | yambopy/dbs/latticedb.py:73 | `[x]*n` has max(n, 0) entries, all equal to x |
| Atoms.FlattenAtomicNumbers | yambopy/dbs/latticedb.py:73-74 | IndexError exactly when there are more species counts than atomic numbers; otherwise the length is the total atom count and each species fills one block of its own atomic number, in species order |
| Atoms.AtomicMasses | yambopy/dbs/latticedb.py:76 | a lookup error exactly when some atomic number is missing from the table, reported for the first such atom; otherwise one mass per atom, taken from the table |
| Symmetry.ReciprocalSymmetries | yambopy/dbs/latticedb.py:92-94 | one entry per symmetry; fails exactly when some symmetry is singular, at the first one, with the entries before it inverted and transposed and the rest still zero; on success every entry is the inverse-transpose of its symmetry |
| Symmetry.FirstSingular | yambopy/dbs/latticedb.py:92-94 | the index the `sym_rec` loop stops at: every symmetry before it is invertible, and it is singular unless it is the end of the list |
| Symmetry.TimeReversalList | yambopy/dbs/latticedb.py:97-100 | nsym flags, flag i being i >= nsym/(time_rev+1) |
| Symmetry.NoTimeReversalWhenOff | yambopy/dbs/latticedb.py:100 | with time_rev == 0 no symmetry is flagged |
| Symmetry.TimeReversedMonotone | yambopy/dbs/latticedb.py:100 | once an index is flagged every later index is flagged |
| Symmetry.TimeReversedUpperHalf | yambopy/dbs/latticedb.py:100 | with time_rev == 1 exactly the indices from ceil(nsym/2) on are flagged |
| Expansion.ZonePoint | yambopy/dbs/latticedb.py:127-128 | the folded reduced coordinates of a point lie in the unit cell and differ from the unfolded ones plus atol by an integer on each axis; the unfolded ones map back onto the point |
| Expansion.ScanSymmetries | yambopy/dbs/latticedb.py:122-136 | LinAlgError exactly when there is a symmetry and the reciprocal lattice is singular; otherwise the orbit the reference Scan keeps, or the empty orbit when there is no symmetry |
| Expansion.ScanEntries | yambopy/dbs/latticedb.py:122-136 | every kept entry is the image of its symmetry and that image's folded point |
| Expansion.ScanIncreasing | yambopy/dbs/latticedb.py:122-136 | the kept symmetry indices increase |
| Expansion.ScanKeepsFirst | yambopy/dbs/latticedb.py:131 | the first symmetry is always kept |
| Expansion.OrbitEntries | yambopy/dbs/latticedb.py:122-136 | the orbit of k holds increasing symmetry indices, starting at 0 when there is a symmetry; each point is sym·k and its folded point is that image folded |
| Expansion.ListAll | yambopy/dbs/latticedb.py:117-136 | the three full-zone lists are parallel, as long as the total orbit size, and every index names an irreducible point |
| Expansion.GatherOrbits | yambopy/dbs/latticedb.py:117-136 | LinAlgError exactly when a point and a symmetry meet a singular reciprocal lattice; otherwise the reference gathering of lists and the `kpoints_full_i` map |
| Expansion.FillWeights | yambopy/dbs/latticedb.py:140-142 | ZeroDivisionError or IndexError exactly when a key exists and nothing was expanded or a key is past the array; otherwise each key gets its orbit size over the total and the other entries stay zero |
| Expansion.Expand | yambopy/dbs/latticedb.py:117-151 | the loops give the count of full-zone points and exactly the reference ExpansionResult, errors included; on success the full list converts to reduced coordinates and the count is its length |
| Expansion.ExpansionOf | yambopy/dbs/latticedb.py:139-151 | the three lists are parallel and at least as long as the irreducible list; there is one weight per irreducible point |
| Expansion.ExpansionResultExact | yambopy/dbs/latticedb.py:139-142 | with the weights array sized by process, the expansion fails exactly when it has irreducible points but no symmetry (ZeroDivisionError) or a singular reciprocal lattice (LinAlgError), and otherwise gives the reference expansion |
| Expansion.ProcessedExpansion | yambopy/dbs/latticedb.py:102-151 | after process, with the weights array as long as the k-point list and an invertible reciprocal lattice, expanding fails exactly when there are k-points but no symmetry, with ZeroDivisionError, and otherwise gives the reference expansion |
| Expansion.ReexpansionFails | yambopy/dbs/latticedb.py:140-142 | when the full list is longer than nkpoints, expanding the expanded list again with the same array size is an IndexError |
| ExpansionProperties.ScanKeeps | yambopy/dbs/latticedb.py:131-135 | symmetry ns is kept exactly when its folded image is close to none of the points kept before it |
| ExpansionProperties.ScanDistinct | yambopy/dbs/latticedb.py:131-132 | no kept folded point is close to one kept before it |
| ExpansionProperties.OrbitFirstFound | yambopy/dbs/latticedb.py:122-136 | first found wins: a symmetry is dropped exactly when its folded image is close to that of an earlier kept symmetry |
| ExpansionProperties.RepeatedSymmetryDropped | yambopy/dbs/latticedb.py:122-136 | a symmetry listed twice is kept at most once, the later copy never |
| ExpansionProperties.ListAllOrdered | yambopy/dbs/latticedb.py:117-136 | irreducible indices never decrease along the full list; within one index the symmetry indices strictly increase |
| ExpansionProperties.ListAllCount | yambopy/dbs/latticedb.py:117-136 | irreducible point nk appears as many times as its orbit has entries |
| ExpansionProperties.ListAllEntries | yambopy/dbs/latticedb.py:117-136 | every entry of the full list is one its irreducible point's orbit keeps |
| ExpansionProperties.ExpansionEntries | yambopy/dbs/latticedb.py:124-135 | the lists are parallel: entry i is symmetry symmetryIndexes[i] applied to irreducible point kpointsIndexes[i] |
| ExpansionProperties.ExpansionOrdered | yambopy/dbs/latticedb.py:117-136 | the irreducible indices never decrease; within one point the symmetry indices strictly increase |
| ExpansionProperties.ExpansionCovers | yambopy/dbs/latticedb.py:117-136 | every irreducible point appears, as often as its orbit is large, and at least through its image under symmetry 0 |
| ExpansionProperties.WeightsTotal | yambopy/dbs/latticedb.py:139-142 | the orbit shares add up to 1 |
| ExpansionProperties.WeightsSumToOne | yambopy/dbs/latticedb.py:139-142 | the weights of an expansion add up to 1 |
| ExpansionProperties.WeightShare | yambopy/dbs/latticedb.py:139-142 | an orbit's weight is its share of the full list |
| ExpansionProperties.WeightIsShare | yambopy/dbs/latticedb.py:139-142 | the weight of an irreducible point is the number of full-zone entries indexed to it over their total, and it is positive |
| ExpansionProperties.IdentityOnly | yambopy/dbs/latticedb.py:117-142 | with the identity as the only symmetry the full zone is the irreducible list, every entry comes from symmetry 0, and all weights are 1/nk |
| ExpansionProperties.GammaWithInversion | yambopy/dbs/latticedb.py:117-142 | Gamma under the identity and the inversion expands to Gamma alone, with weight 1 |
| ExpansionProperties.ScanDistinctPair | yambopy/dbs/latticedb.py:131-135 | two symmetries whose folded images are not close are both kept |
| ExpansionProperties.InversionFolds | yambopy/dbs/latticedb.py:128-132 | the reduced points (0.3, 0, 0) and (-0.3, 0, 0) fold to points that are not close |
| ExpansionProperties.PairOrbit | yambopy/dbs/latticedb.py:122-136 | under the identity and the inversion, the point with reduced coordinates (0.3, 0, 0) keeps both symmetries: its orbit is k and -k |
| ExpansionProperties.PairWithInversion | yambopy/dbs/latticedb.py:117-142 | that point expands to k and -k, both indexed to irreducible point 0, from symmetries 0 and 1, with the single weight 1.0 |
| ExpansionProperties.SingleOrbit | yambopy/dbs/latticedb.py:117-142 | a single orbit is listed as it is and carries the whole weight |
| LatticeDatabase.Trunc | yambopy/dbs/latticedb.py:69-70 | `int()` truncates toward zero: the result is within 1 of x on x's side of zero |
| LatticeDatabase.TruncAll | yambopy/dbs/latticedb.py:61-62 | `astype(int)` truncates each entry toward zero |
| LatticeDatabase.CartesianKpoints | yambopy/dbs/latticedb.py:87 | fails exactly when there are k-points and a lattice parameter component is zero; otherwise one point per input, which times the lattice parameter gives the input back |
| LatticeDatabase.LatticeDB.constructor | yambopy/dbs/latticedb.py:42-43 | an object not yet processed |
| LatticeDatabase.LatticeDB.ReadDimensions | yambopy/dbs/latticedb.py:66-71 | IndexError exactly when DIMENSIONS has fewer than 15 entries, with temperature stored when entry 13 exists; otherwise the five dimensions, nkpoints and spin truncated |
| LatticeDatabase.LatticeDB.ExpandSpecies | yambopy/dbs/latticedb.py:73-76 | the atomic numbers are flattened per atom and the masses looked up, each error leaving the fields not yet reached unchanged |
| LatticeDatabase.Read | yambopy/dbs/latticedb.py:49-78 | readDB fails exactly when DIMENSIONS is too short, a species has no atomic number or an atom no mass; otherwise every field except nkpoints is taken from its database variable (lattice transposed, integers truncated), with the atomic numbers flattened and the masses looked up; nkpoints, which process overwrites, is stated by ReadDB |
| LatticeDatabase.LatticeDB.ReadDB | yambopy/dbs/latticedb.py:49-78 | the arrays of the database (lattice transposed), then the dimensions, then the atomic numbers and masses; each error names what was stored before it; it fails exactly as Read does, and on success the fields are those Read gives |
| LatticeDatabase.LatticeDB.ConvertKpoints | yambopy/dbs/latticedb.py:83-89 | the reciprocal lattice and nsym, then the cartesian k-points, then their reduced coordinates and count, stopping at the first error |
| LatticeDatabase.LatticeDB.InvertSymmetries | yambopy/dbs/latticedb.py:92-100 | sym_rec as in ReciprocalSymmetries, then time_rev_list when every symmetry inverts; the error names the first singular symmetry; the fields readDB stored are untouched |
| LatticeDatabase.LatticeDB.Process | yambopy/dbs/latticedb.py:80-100 | the staged results of process: the dual reciprocal lattice, the cartesian and reduced k-points and their count, the inverse-transposed symmetries and the time-reversal flags, with the state each error leaves; the result is the error chain Processing lists, and the fields readDB stored are untouched |
| LatticeDatabase.LatticeDB.ExpandProcessed | yambopy/dbs/latticedb.py:47 | on a processed object, expanding fails exactly when there are k-points and no symmetry, with ZeroDivisionError, and otherwise leaves the reference expansion of the irreducible points, full_nkpoints equal to the length of the full list, their reduced coordinates, and the readDB and process fields as they were |
| LatticeDatabase.LatticeDB.ExpandKpoints | yambopy/dbs/latticedb.py:102-151 | fails exactly as the reference ExpansionResult does; full_nkpoints is set once the outer loop is through; on success the fields hold the reference expansion, full_nkpoints is the length of the full list, and the reduced coordinates of the full list are stored; the readDB and process fields are untouched |
| LatticeDatabase.ConstructionFails | yambopy/dbs/latticedb.py:42-46 | with expand=False, the constructor fails exactly when readDB does, or on a zero-volume cell, k-points with a zero lattice parameter component, or a singular symmetry; the error is the first of these; process's LinAlgError on the reciprocal lattice never arises; the default expand=True adds the ZeroDivisionError that Open states |
| LatticeDatabase.Load | yambopy/dbs/latticedb.py:42-46 | fails exactly when readDB or process does, with the first error; a successful object holds every field readDB reads and every field process derives (dual reciprocal lattice, cartesian and reduced k-points and their count, inverse-transposed symmetries, time-reversal flags) |
| LatticeDatabase.Open | yambopy/dbs/latticedb.py:42-47 | fails exactly as Load does, or with expand on k-points without symmetries (ZeroDivisionError); a successful object holds every readDB field and process-derived field, the reduced coordinates of its k-points, and with expand exactly the reference expansion of the cartesian k-points, with full_nkpoints its length |

## Left out

- Reading the netCDF file, the file name built from `save` and `filename`,
  the `exit()` when the file cannot be opened, and the `print` of
  expandKpoints are left out. The database's variables are a `Database`
  value passed in.
- The `.T` of `K-POINTS` and the `[0,:]` slice of `ATOM_POS` happen in the
  netCDF layer. The `Database` value holds their results. A missing netCDF
  variable (KeyError) is not modelled.
- The `atomic_mass` table is not part of this model. It is a `map` parameter.
- Floating point is modelled by exact reals. Closeness, folding and the
  singular-matrix tests are exact. `np.linalg.solve`/`inv` fail exactly on a
  zero determinant, not on an ill-conditioned one.
- A zero cell volume in rec_lat and a zero lattice parameter in `k/alat`
  give infinities or NaNs in numpy, not an exception. The model reports
  them as `DegenerateLattice` and `ZeroLatticeParameter` and stops there.
- The weights loop visits the keys of `kpoints_full_i` in an unspecified
  order (a Python 2 dict). The model picks keys nondeterministically and
  proves the result is the same for every order.
- Dimensions and the other numeric fields are unbounded integers and exact
  reals. Overflow of numpy's fixed-width types is not modelled.
