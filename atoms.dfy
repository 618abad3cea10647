/** The per-atom lists readDB derives from the per-species ones: each
    species' atomic number repeated by its atom count, and the mass of every
    atom looked up from its atomic number. */
module Atoms {
  import opened Errors
  import opened Lists

  /** Number of atoms of all species: the sum of the copies of each count. */
  function TotalAtoms(natoms: seq<int>): nat {
    if natoms == [] then 0 else TotalAtoms(natoms[..|natoms| - 1]) + Copies(natoms[|natoms| - 1])
  }

  /** Index of the first atom of species s in the flattened list. */
  function FirstAtom(natoms: seq<int>, s: nat): nat
    requires s <= |natoms|
  {
    TotalAtoms(natoms[..s])
  }

  lemma FirstAtomSteps(natoms: seq<int>, s: nat)
    requires s < |natoms|
    ensures FirstAtom(natoms, s + 1) == FirstAtom(natoms, s) + Copies(natoms[s])
    ensures FirstAtom(natoms, s + 1) <= TotalAtoms(natoms)
    decreases |natoms| - s
  {
    assert natoms[..s + 1][..s] == natoms[..s];
    if s + 1 < |natoms| {
      FirstAtomSteps(natoms, s + 1);
    } else {
      assert natoms[..s + 1] == natoms;
    }
  }

  /** The atomic numbers of species s occupy the block from its first atom to
      the first atom of the next species. */
  predicate BlockOf(flat: seq<int>, numbers: seq<int>, natoms: seq<int>, s: nat)
    requires s < |natoms| && s < |numbers|
  {
    FirstAtom(natoms, s) <= FirstAtom(natoms, s + 1) <= |flat|
    && flat[FirstAtom(natoms, s)..FirstAtom(natoms, s + 1)] == Repeat(numbers[s], natoms[s])
  }

  /** `list(itertools.chain.from_iterable([[atomic_numbers[n]]*na for n,na in
      enumerate(natoms)]))`: the atomic number of every atom, species by species.
      IndexError when a species count has no atomic number. */
  function FlattenAtomicNumbers(numbers: seq<int>, natoms: seq<int>): (r: Result<seq<int>>)
    ensures r.Err? <==> |natoms| > |numbers|
    ensures r.Err? ==> r.error == MissingSpecies(|numbers|)
    ensures r.Ok? ==> |r.value| == TotalAtoms(natoms)
    ensures r.Ok? ==> forall s :: 0 <= s < |natoms| ==> BlockOf(r.value, numbers, natoms, s)
  {
    if natoms == [] then Ok([])
    else
      var last := |natoms| - 1;
      match FlattenAtomicNumbers(numbers, natoms[..last])
      case Err(e) => Err(e)
      case Ok(flat) =>
        if last >= |numbers| then Err(MissingSpecies(|numbers|))
        else
          var r := flat + Repeat(numbers[last], natoms[last]);
          FlattenContents(numbers, natoms, natoms[..last], flat, r);
          Ok(r)
  }

  /** The step of FlattenAtomicNumbers: the block appended for the last species
      keeps the earlier blocks in place. */
  lemma FlattenContents(numbers: seq<int>, natoms: seq<int>, prefix: seq<int>, flat: seq<int>, r: seq<int>)
    requires 0 < |natoms| <= |numbers| && prefix == natoms[..|natoms| - 1]
    requires |flat| == TotalAtoms(prefix)
    requires forall s :: 0 <= s < |prefix| ==> BlockOf(flat, numbers, prefix, s)
    requires r == flat + Repeat(numbers[|natoms| - 1], natoms[|natoms| - 1])
    ensures |r| == TotalAtoms(natoms)
    ensures forall s :: 0 <= s < |natoms| ==> BlockOf(r, numbers, natoms, s)
  {
    forall s | 0 <= s < |natoms|
      ensures BlockOf(r, numbers, natoms, s)
    {
      BlockKept(numbers, natoms, flat, r, s);
    }
  }

  lemma BlockKept(numbers: seq<int>, natoms: seq<int>, flat: seq<int>, r: seq<int>, s: nat)
    requires 0 < |natoms| <= |numbers| && s < |natoms|
    requires |flat| == TotalAtoms(natoms[..|natoms| - 1])
    requires s < |natoms| - 1 ==> BlockOf(flat, numbers, natoms[..|natoms| - 1], s)
    requires r == flat + Repeat(numbers[|natoms| - 1], natoms[|natoms| - 1])
    ensures BlockOf(r, numbers, natoms, s)
  {
    var last := |natoms| - 1;
    var prefix := natoms[..last];
    FirstAtomSteps(natoms, s);
    if s < last {
      assert natoms[..s] == prefix[..s] && natoms[..s + 1] == prefix[..s + 1];
      assert FirstAtom(natoms, s) == FirstAtom(prefix, s) && FirstAtom(natoms, s + 1) == FirstAtom(prefix, s + 1);
      assert r[FirstAtom(natoms, s)..FirstAtom(natoms, s + 1)] == flat[FirstAtom(natoms, s)..FirstAtom(natoms, s + 1)];
    } else {
      assert natoms[..s] == prefix;
      assert r[|flat|..] == Repeat(numbers[last], natoms[last]);
    }
  }

  /** `[atomic_mass[a] for a in self.atomic_numbers]` over a mass table given
      as a map: the mass of every atom, in order. A missing entry is reported
      for the first atom that lacks one. */
  function AtomicMasses(numbers: seq<int>, massTable: map<int, real>): (r: Result<seq<real>>)
    ensures r.Err? <==> exists i :: 0 <= i < |numbers| && numbers[i] !in massTable
    ensures r.Err? ==> exists i :: 0 <= i < |numbers| && numbers[i] !in massTable
                         && r.error == UnknownElement(numbers[i])
                         && forall k :: 0 <= k < i ==> numbers[k] in massTable
    ensures r.Ok? ==> |r.value| == |numbers|
    ensures r.Ok? ==> forall i :: 0 <= i < |numbers| ==> r.value[i] == massTable[numbers[i]]
  {
    if numbers == [] then Ok([])
    else if numbers[0] !in massTable then Err(UnknownElement(numbers[0]))
    else
      match AtomicMasses(numbers[1..], massTable)
      case Err(e) =>
        assert forall i :: 0 < i < |numbers| ==> numbers[i] == numbers[1..][i - 1];
        Err(e)
      case Ok(rest) => Ok([massTable[numbers[0]]] + rest)
  }
}
