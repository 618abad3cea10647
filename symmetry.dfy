/** The symmetry post-processing of YamboLatticeDB.process: the reciprocal
    form of every cartesian symmetry and the list of which symmetries carry
    time reversal. */
module Symmetry {
  import opened Vectors
  import opened Errors
  import opened Coordinates

  /** rec is the inverse-transpose of s: its transpose undoes s on both sides. */
  predicate InverseTransposeOf(s: Mat3, rec: Mat3) {
    MatMul(s, Transpose(rec)) == Identity && MatMul(Transpose(rec), s) == Identity
  }

  /** The zero matrix `sym_rec` starts with. */
  const ZeroMatrix := Mat3(Zero, Zero, Zero)

  /** The loop that fills `sym_rec[n] = inv(s).T` for every cartesian symmetry,
      in a buffer of `nsym` matrices that starts as zeros. The first singular
      symmetry stops it with LinAlgError, leaving the entries before it filled
      and the rest zero. */
  method ReciprocalSymmetries(symCar: seq<Mat3>) returns (symRec: seq<Mat3>, r: Result<()>)
    ensures |symRec| == |symCar|
    ensures r.Err? <==> exists n :: 0 <= n < |symCar| && Det(symCar[n]) == 0.0
    ensures r.Err? ==> r.error.SingularSymmetry? && r.error.index < |symCar|
                       && Det(symCar[r.error.index]) == 0.0
                       && (forall n :: 0 <= n < r.error.index ==> Det(symCar[n]) != 0.0)
                       && (forall n :: 0 <= n < r.error.index ==> InverseTransposeOf(symCar[n], symRec[n]))
                       && (forall n :: r.error.index <= n < |symCar| ==> symRec[n] == ZeroMatrix)
    ensures r.Ok? ==> forall n :: 0 <= n < |symCar| ==> InverseTransposeOf(symCar[n], symRec[n])
  {
    var buffer := new Mat3[|symCar|](_ => ZeroMatrix);
    for n := 0 to |symCar|
      invariant forall k :: 0 <= k < n ==> Det(symCar[k]) != 0.0
      invariant forall k :: 0 <= k < n ==> InverseTransposeOf(symCar[k], buffer[k])
      invariant forall k :: n <= k < |symCar| ==> buffer[k] == ZeroMatrix
    {
      match Inverse(symCar[n])
      case Err(_) =>
        return buffer[..], Err(SingularSymmetry(n));
      case Ok(inv) =>
        assert Transpose(Transpose(inv)) == inv;
        buffer[n] := Transpose(inv);
    }
    return buffer[..], Ok(());
  }

  /** The index of the first singular symmetry, the one the `sym_rec` loop
      stops at, or the number of symmetries when none is singular. */
  function FirstSingular(syms: seq<Mat3>): (n: nat)
    ensures n <= |syms|
    ensures forall k :: 0 <= k < n ==> Det(syms[k]) != 0.0
    ensures n < |syms| ==> Det(syms[n]) == 0.0
  {
    if syms == [] || Det(syms[0]) == 0.0 then 0 else 1 + FirstSingular(syms[1..])
  }

  /** Whether symmetry i of nsym carries time reversal:
      `i >= nsym/(time_rev+1)`. time_rev is read from a floating-point field,
      so this is true division; when time_rev + 1 is zero numpy gives +inf
      (no index reaches it). */
  predicate TimeReversed(i: nat, nsym: nat, timeRev: real) {
    if timeRev + 1.0 == 0.0 then false
    else (i as real) >= (nsym as real) / (timeRev + 1.0)
  }

  /** The loop that fills `time_rev_list`, a list of nsym False entries, with
      `i >= nsym/(time_rev+1)` for each index. */
  method TimeReversalList(nsym: nat, timeRev: real) returns (flags: seq<bool>)
    ensures |flags| == nsym
    ensures forall i :: 0 <= i < nsym ==> flags[i] == TimeReversed(i, nsym, timeRev)
  {
    var list := new bool[nsym](_ => false);
    for i := 0 to nsym
      invariant forall k :: 0 <= k < i ==> list[k] == TimeReversed(k, nsym, timeRev)
    {
      list[i] := TimeReversed(i, nsym, timeRev);
    }
    flags := list[..];
  }

  /** Without time reversal no symmetry is flagged. */
  lemma NoTimeReversalWhenOff(nsym: nat, i: nat)
    requires i < nsym
    ensures !TimeReversed(i, nsym, 0.0)
  {
  }

  /** Once an index is flagged every later one is: the list is false up to the
      threshold and true from it on. */
  lemma TimeReversedMonotone(nsym: nat, timeRev: real, i: nat, j: nat)
    requires i <= j
    requires TimeReversed(i, nsym, timeRev)
    ensures TimeReversed(j, nsym, timeRev)
  {
  }

  /** With time reversal on (time_rev == 1) the flagged symmetries are the
      upper half: the indices from ceil(nsym/2) on. For even nsym that is
      exactly the second half of the list; for odd nsym the middle symmetry
      is not flagged. */
  lemma TimeReversedUpperHalf(nsym: nat, i: nat)
    ensures TimeReversed(i, nsym, 1.0) <==> i >= (nsym + 1) / 2
  {
    var h := (nsym + 1) / 2;
    assert (nsym as real) / 2.0 == (nsym as real) * 0.5;
    if i >= h {
      assert 2 * i >= nsym;
    } else {
      assert 2 * i < nsym;
    }
  }
}
