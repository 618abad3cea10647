/** The list idioms the lattice code leans on: Python's `[x] * n` and a
    strictly increasing list of indices. */
module Lists {

  /** How many copies Python's `[x] * n` makes: none for n <= 0. */
  function Copies(n: int): nat {
    if n <= 0 then 0 else n
  }

  /** Python's `[x] * n`. */
  function Repeat<T>(x: T, n: int): (r: seq<T>)
    ensures |r| == Copies(n)
    ensures forall i :: 0 <= i < |r| ==> r[i] == x
  {
    if n <= 0 then [] else Repeat(x, n - 1) + [x]
  }

  /** Every index is smaller than the ones after it. */
  predicate Increasing(s: seq<nat>) {
    forall i, j :: 0 <= i < j < |s| ==> s[i] < s[j]
  }
}
