/** Small shared vocabulary: failure-compatible results, geometry types and a
    few sequence and set helpers used by the index-set modules. */
module Common {

  datatype Option<T> = None | Some(value: T)

  /** The exceptions the modelled code throws (`DUNE_THROW( kind, message )`),
      and a failed `assert` of a test, named by its condition. */
  datatype Error =
    | NotImplemented(message: string)
    | GridError(message: string)
    | AlbertaIOError(message: string)
    | AssertionFailed(condition: string)

  datatype Result<T> = Success(value: T) | Failure(error: Error)

  datatype Outcome = Pass | Fail(error: Error)

  /** The basic shape of a reference element (`GeometryType::simplex`, `GeometryType::cube`, ...). */
  datatype BasicType = Simplex | Cube | Pyramid | Prism | NoneType

  /** A geometry type: its basic shape and its dimension. */
  datatype GeometryType = GeometryType(basicType: BasicType, dim: nat)
  {
    predicate IsSimplex() { basicType == Simplex }
    predicate IsCube() { basicType == Cube }
  }

  /** No element of `s` occurs twice. */
  predicate NoDup<T(==)>(s: seq<T>)
  {
    forall i, j :: 0 <= i < j < |s| ==> s[i] != s[j]
  }

  /** The integers 0 .. n-1. */
  function Range(n: int): (r: set<int>)
    ensures forall v :: v in r <==> 0 <= v < n
    decreases n
  {
    if n <= 0 then {} else Range(n - 1) + {n - 1}
  }

  /** The dofs all address a slot of a vector of length `n`. */
  predicate DofsIn(dofs: seq<nat>, n: int)
  {
    forall k :: 0 <= k < |dofs| ==> dofs[k] < n
  }

  /** The elements of `s`, as a set. */
  function Elems<T>(s: seq<T>): set<T>
  {
    set k | 0 <= k < |s| :: s[k]
  }
}
