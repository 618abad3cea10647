/** The ways the lattice code can fail, and a result type carrying them. */
module Errors {

  datatype LatticeError =
    /** `np.linalg.solve` on a singular basis (LinAlgError). */
    | SingularBasis
    /** `np.linalg.inv` on the singular symmetry matrix at this index (LinAlgError). */
    | SingularSymmetry(index: nat)
    /** rec_lat on lattice vectors spanning no volume (numpy divides by zero). */
    | DegenerateLattice
    /** `k/alat` with a zero lattice parameter (numpy divides by zero). */
    | ZeroLatticeParameter
    /** `self.atomic_numbers[n]` past the end of the species list (IndexError). */
    | MissingSpecies(species: nat)
    /** `atomic_mass[a]` for an atomic number the mass table lacks. */
    | UnknownElement(atomicNumber: int)
    /** `float(len(...))/self.full_nkpoints` with nothing expanded (ZeroDivisionError). */
    | ZeroDivision
    /** `weights[nk]` for an irreducible index past the end of the weights
        array (IndexError). */
    | WeightIndexOutOfRange
    /** `np.zeros([nkpoints])` with a negative nkpoints (ValueError). */
    | NegativeDimension
    /** `dimensions[index]` past the end of the DIMENSIONS variable (IndexError). */
    | MissingDimension(index: nat)

  datatype Result<+T> = Ok(value: T) | Err(error: LatticeError)
}
