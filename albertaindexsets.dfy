/** The ALBERTA hierarchic index set (`AlbertaGridHierarchicIndexSet`).

    Every codimension below the vertex codimension has an index manager
    (`indexStack_[ codim ]`) and a dof vector of integers
    (`entityNumbers_[ codim ]`) whose slot `d` holds the index of the entity
    with dof `d`; a vertex's index is its dof itself.  The ghost field `live`
    records, per numbered codimension, which dofs currently belong to an
    entity; `Valid()` says the bookkeeping invariant `Books` holds for each.

    ALBERTA's backend is abstract: an element is given by the dofs of its
    sub-entities (`DofAccess`), a traversal by the sequence of dofs it visits,
    a refine or coarsen patch by the dofs of its internal sub-children, the
    mesh's vertex count by a parameter.  The global `tmpIndexStack` through
    which the hooks find their index manager is replaced by the index set's own
    manager for that codimension. */
module AlbertaIndexSets {
  import opened Common
  import opened IndexManagers
  import opened AlbertaNumbering
  import AlbertaExtra

  /** An ALBERTA element as the index set sees it: for every codimension, the
      dof of each of its sub-entities in ALBERTA's local numbering. */
  datatype Element = Element(dofs: seq<seq<nat>>)

  /** An entity: its codimension, the element it is reached through and its
      local number there (`getFEVnum`). */
  datatype Entity = Entity(codim: nat, element: Element, localNumber: nat)

  /** The message of the error `read` always ends with. */
  const ReadMessage: string := "We need to set dofAccess_ here, too"

  class HierarchicIndexSet {
    const dimension: nat
    /** `refTopo_.dune2albertaEdge`: DUNE's local edge number to ALBERTA's. */
    const edgeMap: seq<nat>
    /** True for a build without NDEBUG: coarsening then poisons freed slots with -1. */
    const debug: bool
    const indexStack: seq<IndexManager>
    var entityNumbers: seq<array<int>>
    ghost var live: seq<set<nat>>
    var geomTypes: seq<seq<GeometryType>>

    /** The structure the constructor sets up. */
    ghost predicate Shape()
      reads this
    {
      && 2 <= dimension <= 3
      && |indexStack| == dimension
      && NoDup(indexStack)
      && |geomTypes| == dimension + 1
      && forall c :: 0 <= c <= dimension ==> geomTypes[c] == [GeometryType(Simplex, dimension - c)]
    }

    /** `create` has run: one dof vector per numbered codimension. */
    ghost predicate Created()
      reads this
    {
      && Shape()
      && |entityNumbers| == dimension
      && |live| == dimension
      && NoDup(entityNumbers)
    }

    /** The bookkeeping invariant holds for every numbered codimension. */
    ghost predicate Valid()
      reads this, indexStack, entityNumbers
    {
      && Created()
      && forall c :: 0 <= c < dimension ==> Books(indexStack[c].State(), entityNumbers[c][..], live[c])
    }

    /** The constructor: one empty index manager per numbered codimension and,
        for every codimension, the single simplex geometry type of dimension
        `dimension - codim`. */
    constructor (dim: nat, dune2albertaEdge: seq<nat>, debugBuild: bool)
      requires 2 <= dim <= 3
      ensures Shape() && dimension == dim && edgeMap == dune2albertaEdge && debug == debugBuild
      ensures forall c :: 0 <= c < dimension ==> indexStack[c].State() == Initial && fresh(indexStack[c])
      ensures entityNumbers == [] && live == []
    {
      dimension := dim;
      edgeMap := dune2albertaEdge;
      debug := debugBuild;
      var m0 := new IndexManager();
      var m1 := new IndexManager();
      if dim == 3 {
        var m2 := new IndexManager();
        indexStack := [m0, m1, m2];
      } else {
        indexStack := [m0, m1];
      }
      entityNumbers := [];
      live := [];
      var types := [];
      var codim := 0;
      while codim <= dim
        invariant 0 <= codim <= dim + 1
        invariant |types| == codim
        invariant forall c :: 0 <= c < codim ==> types[c] == [GeometryType(Simplex, dim - c)]
      {
        types := types + [[GeometryType(Simplex, dim - codim)]];
        codim := codim + 1;
      }
      geomTypes := types;
    }

    /** `contains`: every entity has an index in this set. */
    function Contains(e: Entity): (r: bool)
      ensures r
    {
      true
    }

    /** `geomTypes(codim)`: the one simplex type of the codimension. */
    function GeomTypes(codim: int): (r: seq<GeometryType>)
      reads this
      requires Shape() && 0 <= codim <= dimension
      ensures |r| == 1 && r[0].IsSimplex() && r[0].dim == dimension - codim
    {
      geomTypes[codim]
    }

    /** The local number ALBERTA uses: edges of a tetrahedron are renumbered. */
    function AlbertaLocal(codim: nat, i: nat): nat
      reads this
      requires codim < dimension && codim == 2 ==> i < |edgeMap|
    {
      if codim < dimension && codim == 2 then edgeMap[i] else i
    }

    /** The element can be asked for sub-entity `i` of codimension `codim`. */
    ghost predicate Reaches(codim: nat, element: Element, i: nat)
      reads this
    {
      && codim <= dimension
      && (codim < dimension && codim == 2 ==> i < |edgeMap|)
      && codim < |element.dofs|
      && AlbertaLocal(codim, i) < |element.dofs[codim]|
    }

    /** The dof of sub-entity `i` of codimension `codim` of the element (`dofAccess_`). */
    function DofOf(codim: nat, element: Element, i: nat): nat
      reads this
      requires Reaches(codim, element, i)
    {
      element.dofs[codim][AlbertaLocal(codim, i)]
    }

    /** The dof addresses a slot of the codimension's dof vector. */
    ghost predicate Addressable(codim: nat, element: Element, i: nat)
      reads this, entityNumbers
    {
      && Created()
      && Reaches(codim, element, i)
      && (codim < dimension ==> DofOf(codim, element, i) < entityNumbers[codim].Length)
    }

    /** `subIndex( Int2Type< codim >, element, i )`: for a numbered
        codimension the number stored at the sub-entity's dof, for the vertex
        codimension the dof itself. */
    function SubIndex(codim: nat, element: Element, i: nat): (r: int)
      reads this, entityNumbers
      requires Addressable(codim, element, i)
      ensures codim == dimension ==> r == DofOf(codim, element, i)
      ensures codim < dimension ==> r == entityNumbers[codim][DofOf(codim, element, i)]
    {
      var dof := DofOf(codim, element, i);
      if codim < dimension then entityNumbers[codim][dof] else dof
    }

    /** `index(e)`: the sub-index of the entity on its own element with its own local number. */
    function Index(e: Entity): (r: int)
      reads this, entityNumbers
      requires Addressable(e.codim, e.element, e.localNumber)
      ensures e.codim == dimension ==> r == DofOf(e.codim, e.element, e.localNumber)
      ensures e.codim < dimension ==> r == entityNumbers[e.codim][DofOf(e.codim, e.element, e.localNumber)]
    {
      SubIndex(e.codim, e.element, e.localNumber)
    }

    /** `subIndex< codim >( entity, i )` on an element entity. */
    function SubIndexOf(e: Entity, i: nat, codim: nat): (r: int)
      reads this, entityNumbers
      requires e.codim == 0 && Addressable(codim, e.element, i)
      ensures codim == dimension ==> r == DofOf(codim, e.element, i)
      ensures codim < dimension ==> r == entityNumbers[codim][DofOf(codim, e.element, i)]
    {
      SubIndex(codim, e.element, i)
    }

    /** index and subIndex agree: the index of a sub-entity, reached through
        any element and local number that lead to the same dof, equals the
        sub-index of that sub-entity on a codimension-0 entity. */
    lemma IndexAgreesWithSubIndex(parent: Entity, i: nat, sub: Entity)
      requires parent.codim == 0 && Addressable(sub.codim, parent.element, i)
      requires Addressable(sub.codim, sub.element, sub.localNumber)
      requires DofOf(sub.codim, sub.element, sub.localNumber) == DofOf(sub.codim, parent.element, i)
      ensures Index(sub) == SubIndexOf(parent, i, sub.codim)
    {
    }

    /** The live entity of a numbered codimension is the one whose dof is live. */
    ghost predicate LiveEntity(e: Entity)
      reads this, entityNumbers
    {
      && Addressable(e.codim, e.element, e.localNumber)
      && (e.codim < dimension ==> DofOf(e.codim, e.element, e.localNumber) in live[e.codim])
    }

    /** `size(codim)`, with the mesh's vertex count given: the vertex count for
        the vertex codimension, else the index manager's size; every live
        entity's index lies below it. */
    function Size(codim: int, nVertices: nat): (r: int)
      reads this, indexStack, entityNumbers
      requires Valid() && 0 <= codim <= dimension
      ensures r >= 0
      ensures codim < dimension ==> forall d :: d in live[codim] ==> 0 <= entityNumbers[codim][d] < r
    {
      if codim == dimension then nVertices
      else
        BooksStackValid(indexStack[codim].State(), entityNumbers[codim][..], live[codim]);
        LiveBelowSize(codim);
        indexStack[codim].Size()
    }

    /** Every live entity's index lies below its manager's high-water mark. */
    lemma LiveBelowSize(codim: int)
      requires Valid() && 0 <= codim < dimension
      ensures forall d :: d in live[codim] ==> 0 <= entityNumbers[codim][d] < indexStack[codim].maxIndex
    {
      var st := indexStack[codim].State();
      var vals := entityNumbers[codim][..];
      forall d | d in live[codim] ensures 0 <= entityNumbers[codim][d] < st.maxIndex {
        LiveIsInUse(st, vals, live[codim], d);
      }
    }

    /** `size(type)`: the size of the codimension a simplex type belongs to, and
        0 for every other type. */
    function SizeOfType(t: GeometryType, nVertices: nat): (r: int)
      reads this, indexStack, entityNumbers
      requires Valid() && (t.IsSimplex() ==> t.dim <= dimension)
      ensures !t.IsSimplex() ==> r == 0
      ensures t.IsSimplex() ==> r == Size(dimension - t.dim, nVertices)
    {
      if t.IsSimplex() then Size(dimension - t.dim, nVertices) else 0
    }

    /** Asking for the size by the geometry type the set reports for a
        codimension gives the size of that codimension. */
    lemma SizeByReportedType(codim: int, nVertices: nat)
      requires Valid() && 0 <= codim <= dimension
      ensures SizeOfType(GeomTypes(codim)[0], nVertices) == Size(codim, nVertices)
    {
    }

    /** Live entities of one codimension with different dofs have different
        indices, each below `size`; a live index is never waiting for reuse. */
    lemma LiveIndicesUnique(e1: Entity, e2: Entity, nVertices: nat)
      requires Valid() && LiveEntity(e1) && LiveEntity(e2) && e1.codim == e2.codim
      requires DofOf(e1.codim, e1.element, e1.localNumber) != DofOf(e2.codim, e2.element, e2.localNumber)
      ensures Index(e1) != Index(e2)
      ensures e1.codim < dimension ==>
        0 <= Index(e1) < Size(e1.codim, nVertices) && Index(e1) !in indexStack[e1.codim].free
    {
      if e1.codim < dimension {
        var c := e1.codim;
        LiveIsInUse(indexStack[c].State(), entityNumbers[c][..], live[c], DofOf(c, e1.element, e1.localNumber));
      }
    }

    /** Every index below `size` of a numbered codimension is held by exactly
        one live dof or waits on the free stack, and `size` is the number of
        live dofs plus the number of waiting indices. */
    lemma SizeAccounts(codim: int, nVertices: nat)
      requires Valid() && 0 <= codim < dimension
      ensures Size(codim, nVertices) == |live[codim]| + |indexStack[codim].free|
      ensures forall v :: 0 <= v < Size(codim, nVertices) ==>
        v in indexStack[codim].free || exists d :: d in live[codim] && entityNumbers[codim][d] == v
    {
      var st := indexStack[codim].State();
      var vals := entityNumbers[codim][..];
      LiveCount(st, vals, live[codim]);
      forall v | 0 <= v < st.maxIndex
        ensures v in st.free || exists d :: d in live[codim] && entityNumbers[codim][d] == v
      {
        assert v in Range(st.maxIndex);
        if v !in st.free {
          assert v !in Elems(st.free);
          assert v in LiveValues(vals, live[codim]);
          var d :| d in live[codim] && d < |vals| && vals[d] == v;
          assert entityNumbers[codim][d] == v;
        }
      }
    }

    /** `create`: number codimensions 0 and 1, and 2 when the dimension is 3,
        each in its own dof-vector traversal order from a fresh index manager.
        `dofSpaceSize[c]` is the size of codimension c's dof space and
        `usedDofs[c]` its used dofs in `forEach` order. */
    method Create(dofSpaceSize: seq<nat>, usedDofs: seq<seq<nat>>)
      requires Shape() && entityNumbers == [] && live == []
      requires forall c :: 0 <= c < dimension ==> indexStack[c].State() == Initial
      requires |dofSpaceSize| == dimension && |usedDofs| == dimension
      requires forall c :: 0 <= c < dimension ==> NoDup(usedDofs[c]) && DofsIn(usedDofs[c], dofSpaceSize[c])
      modifies this, indexStack
      ensures Valid()
      ensures forall c :: 0 <= c < dimension ==>
        && fresh(entityNumbers[c])
        && entityNumbers[c].Length == dofSpaceSize[c]
        && live[c] == Elems(usedDofs[c])
        && indexStack[c].State() == StackState([], |usedDofs[c]|)
        && DofsIn(usedDofs[c], entityNumbers[c].Length)
        && forall k :: 0 <= k < |usedDofs[c]| ==> entityNumbers[c][usedDofs[c][k]] == k
    {
      CreateEntityNumbers(dofSpaceSize[0], usedDofs[0]);
      CreateEntityNumbers(dofSpaceSize[1], usedDofs[1]);
      if dimension == 3 {
        CreateEntityNumbers(dofSpaceSize[2], usedDofs[2]);
      }
    }

    /** `createEntityNumbers< codim >` for the next codimension `c == |entityNumbers|`:
        a new dof vector, numbered by one `getIndex` per used dof. */
    method CreateEntityNumbers(size: nat, dofs: seq<nat>)
      requires Shape() && |entityNumbers| == |live| < dimension && NoDup(entityNumbers)
      requires forall c :: 0 <= c < |entityNumbers| ==> Books(indexStack[c].State(), entityNumbers[c][..], live[c])
      requires indexStack[|entityNumbers|].State() == Initial
      requires NoDup(dofs) && DofsIn(dofs, size)
      modifies this, indexStack[|entityNumbers|]
      ensures Shape() && NoDup(entityNumbers)
      ensures |entityNumbers| == |live| == old(|entityNumbers|) + 1
      ensures entityNumbers[..|entityNumbers| - 1] == old(entityNumbers)
      ensures live == old(live) + [Elems(dofs)]
      ensures forall c :: 0 <= c < |entityNumbers| ==> Books(indexStack[c].State(), entityNumbers[c][..], live[c])
      ensures forall c :: 0 <= c < |entityNumbers| - 1 ==> indexStack[c].State() == old(indexStack[c].State())
      ensures forall c :: |entityNumbers| <= c < dimension ==> indexStack[c].State() == old(indexStack[c].State())
      ensures fresh(entityNumbers[|entityNumbers| - 1]) && entityNumbers[|entityNumbers| - 1].Length == size
      ensures indexStack[|entityNumbers| - 1].State() == StackState([], |dofs|)
      ensures forall k :: 0 <= k < |dofs| ==> entityNumbers[|entityNumbers| - 1][dofs[k]] == k
    {
      var c := |entityNumbers|;
      var stack := indexStack[c];
      var vec := NewNumbering(stack, size, dofs);
      entityNumbers := entityNumbers + [vec];
      live := live + [Elems(dofs)];
      assert {} + Elems(dofs) == Elems(dofs);
      forall i, j | 0 <= i < j < |entityNumbers| ensures entityNumbers[i] != entityNumbers[j] {
        if j == c { assert entityNumbers[i] == old(entityNumbers[i]); }
      }
      forall k | 0 <= k < |indexStack| && k != c ensures indexStack[k] != stack {
        assert indexStack[k] != indexStack[c];
      }
    }

    /** `read`: the dof vectors are taken as read back from the files; each
        numbered codimension's index manager gets the high-water mark
        `calcMaxIndex` finds over the used dofs `usedDofs[c]`; then `read`
        always fails with an ALBERTA I/O error. */
    method Read(usedDofs: seq<seq<nat>>) returns (r: Outcome)
      requires Created() && |usedDofs| == dimension
      requires forall c :: 0 <= c < dimension ==> DofsIn(usedDofs[c], entityNumbers[c].Length)
      modifies indexStack
      ensures r == Fail(AlbertaIOError(ReadMessage))
      ensures forall c :: 0 <= c < dimension ==>
        && DofsIn(usedDofs[c], entityNumbers[c].Length)
        && indexStack[c].free == old(indexStack[c].free)
        && indexStack[c].maxIndex >= 1
        && (forall k :: 0 <= k < |usedDofs[c]| ==> entityNumbers[c][usedDofs[c][k]] < indexStack[c].maxIndex)
        && (indexStack[c].maxIndex == 1 ||
            exists k :: 0 <= k < |usedDofs[c]| && indexStack[c].maxIndex == entityNumbers[c][usedDofs[c][k]] + 1)
    {
      var i := 0;
      while i < dimension
        invariant 0 <= i <= dimension
        invariant forall c :: i <= c < dimension ==> indexStack[c].State() == old(indexStack[c].State())
        invariant forall c :: 0 <= c < i ==>
          && DofsIn(usedDofs[c], entityNumbers[c].Length)
          && indexStack[c].free == old(indexStack[c].free)
          && indexStack[c].maxIndex >= 1
          && (forall k :: 0 <= k < |usedDofs[c]| ==> entityNumbers[c][usedDofs[c][k]] < indexStack[c].maxIndex)
          && (indexStack[c].maxIndex == 1 ||
              exists k :: 0 <= k < |usedDofs[c]| && indexStack[c].maxIndex == entityNumbers[c][usedDofs[c][k]] + 1)
      {
        var maxIdx := AlbertaExtra.CalcMaxIndex(entityNumbers[i], usedDofs[i]);
        indexStack[i].SetMaxIndex(maxIdx);
        forall c | 0 <= c < dimension && c != i ensures indexStack[c] != indexStack[i] {
          assert NoDup(indexStack);
        }
        i := i + 1;
      }
      r := Fail(AlbertaIOError(ReadMessage));
    }

    /** `RefineNumbering::interpolateVector` for codimension `c`: every internal
        sub-child dof of the patch, `dofs`, gets the index of one fresh
        `getIndex`, and those dofs become live.  Nothing else changes. */
    method RefineNumbering(c: nat, dofs: seq<nat>)
      requires Valid() && c < dimension
      requires DofsIn(dofs, entityNumbers[c].Length) && NoDup(dofs)
      requires forall k :: 0 <= k < |dofs| ==> dofs[k] !in live[c]
      modifies this, indexStack[c], entityNumbers[c]
      ensures Valid()
      ensures entityNumbers == old(entityNumbers) && geomTypes == old(geomTypes)
      ensures (indexStack[c].State(), entityNumbers[c][..]) == RefineAll(old(indexStack[c].State()), old(entityNumbers[c][..]), dofs)
      ensures live == old(live)[c := old(live[c]) + Elems(dofs)]
      ensures forall c' :: 0 <= c' < dimension && c' != c ==>
        indexStack[c'].State() == old(indexStack[c'].State()) && entityNumbers[c'][..] == old(entityNumbers[c'][..])
    {
      RefinePreserves(indexStack[c].State(), entityNumbers[c][..], live[c], dofs);
      NumberDofs(indexStack[c], entityNumbers[c], dofs);
      live := live[c := live[c] + Elems(dofs)];
      forall c' | 0 <= c' < dimension && c' != c
        ensures indexStack[c'] != indexStack[c] && entityNumbers[c'] != entityNumbers[c]
      {
        assert NoDup(indexStack) && NoDup(entityNumbers);
      }
    }

    /** `CoarsenNumbering::restrictVector` for codimension `c`: every internal
        sub-child dof of the patch gives its index back with `freeIndex` and,
        in a debug build, its slot is set to -1; those dofs stop being live.
        Nothing else changes. */
    method CoarsenNumbering(c: nat, dofs: seq<nat>)
      requires Valid() && c < dimension
      requires NoDup(dofs) && forall k :: 0 <= k < |dofs| ==> dofs[k] in live[c]
      modifies this, indexStack[c], entityNumbers[c]
      ensures Valid()
      ensures entityNumbers == old(entityNumbers) && geomTypes == old(geomTypes)
      ensures DofsIn(dofs, |old(entityNumbers[c][..])|)
      ensures (indexStack[c].State(), entityNumbers[c][..]) == CoarsenAll(old(indexStack[c].State()), old(entityNumbers[c][..]), dofs, debug)
      ensures live == old(live)[c := old(live[c]) - Elems(dofs)]
      ensures forall c' :: 0 <= c' < dimension && c' != c ==>
        indexStack[c'].State() == old(indexStack[c'].State()) && entityNumbers[c'][..] == old(entityNumbers[c'][..])
    {
      CoarsenPreserves(indexStack[c].State(), entityNumbers[c][..], live[c], dofs, debug);
      ReleaseDofs(indexStack[c], entityNumbers[c], dofs, debug, live[c]);
      live := live[c := live[c] - Elems(dofs)];
      forall c' | 0 <= c' < dimension && c' != c
        ensures indexStack[c'] != indexStack[c] && entityNumbers[c'] != entityNumbers[c]
      {
        assert NoDup(indexStack) && NoDup(entityNumbers);
      }
    }
  }

  /** The step shared by `InitEntityNumber` and `RefineNumbering`, applied to
      each dof in turn: `array[ dof ] = indexStack_.getIndex()`. */
  /** A fresh dof vector of `size` entries, numbered from a fresh manager by
      one `getIndex` per dof: the k-th dof gets k. */
  method NewNumbering(stack: IndexManager, size: nat, dofs: seq<nat>) returns (vec: array<int>)
    requires stack.State() == Initial && NoDup(dofs) && DofsIn(dofs, size)
    modifies stack
    ensures fresh(vec) && vec.Length == size
    ensures Books(stack.State(), vec[..], Elems(dofs))
    ensures stack.State() == StackState([], |dofs|)
    ensures forall k :: 0 <= k < |dofs| ==> vec[dofs[k]] == k
  {
    vec := new int[size];
    ghost var vals0 := vec[..];
    NumberInOrder(0, vals0, dofs);
    BooksInitial(vals0);
    RefinePreserves(Initial, vals0, {}, dofs);
    NumberDofs(stack, vec, dofs);
    assert {} + Elems(dofs) == Elems(dofs);
  }

  method NumberDofs(stack: IndexManager, vec: array<int>, dofs: seq<nat>)
    requires DofsIn(dofs, vec.Length)
    modifies stack, vec
    ensures (stack.State(), vec[..]) == RefineAll(old(stack.State()), old(vec[..]), dofs)
  {
    var i := 0;
    while i < |dofs|
      invariant 0 <= i <= |dofs|
      invariant RefineAll(stack.State(), vec[..], dofs[i..]) == RefineAll(old(stack.State()), old(vec[..]), dofs)
    {
      ghost var st := stack.State();
      ghost var vals := vec[..];
      assert dofs[i..][0] == dofs[i] && dofs[i..][1..] == dofs[i + 1..];
      var v := stack.GetIndex();
      vec[dofs[i]] := v;
      assert vec[..] == vals[dofs[i] := v];
      i := i + 1;
    }
  }

  /** The step of `CoarsenNumbering`, applied to each dof in turn:
      `indexStack_.freeIndex( array[ dof ] )`, then `array[ dof ] = -1` when
      `poison`.  The ghost `live` is the set of live dofs, which makes every
      freed index one that is in use. */
  method ReleaseDofs(stack: IndexManager, vec: array<int>, dofs: seq<nat>, poison: bool, ghost live: set<nat>)
    requires Books(stack.State(), vec[..], live) && NoDup(dofs)
    requires forall k :: 0 <= k < |dofs| ==> dofs[k] in live
    modifies stack, vec
    ensures DofsIn(dofs, |old(vec[..])|)
    ensures (stack.State(), vec[..]) == CoarsenAll(old(stack.State()), old(vec[..]), dofs, poison)
  {
    var i := 0;
    ghost var rest := live;
    while i < |dofs|
      invariant 0 <= i <= |dofs|
      invariant DofsIn(dofs[i..], vec.Length)
      invariant Books(stack.State(), vec[..], rest)
      invariant forall k :: i <= k < |dofs| ==> dofs[k] in rest
      invariant CoarsenAll(stack.State(), vec[..], dofs[i..], poison) == CoarsenAll(old(stack.State()), old(vec[..]), dofs, poison)
    {
      ghost var st := stack.State();
      ghost var vals := vec[..];
      var d := dofs[i];
      assert dofs[i..][0] == d && dofs[i..][1..] == dofs[i + 1..];
      LiveIsInUse(st, vals, rest, d);
      ReleasePreserves(st, vals, rest, d, if poison then -1 else vals[d]);
      stack.FreeIndex(vec[d]);
      if poison {
        vec[d] := -1;
      }
      assert vals[d := vals[d]] == vals;
      assert vec[..] == (if poison then vals[d := -1] else vals[d := vals[d]]);
      rest := rest - {d};
      forall k | i + 1 <= k < |dofs| ensures dofs[k] in rest {
        assert dofs[k] != dofs[i];
      }
      i := i + 1;
    }
    assert DofsIn(dofs, vec.Length) by {
      forall k | 0 <= k < |dofs| ensures dofs[k] < vec.Length { }
    }
  }
}
