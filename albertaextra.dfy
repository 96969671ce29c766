/** Helper routines for the ALBERTA mesh (namespace `AlbertHelp`): the largest
    stored index of a dof vector, clearing a dof vector, the maximal leaf level,
    recording the level of every element, and the refine/coarsen call-back
    registry.  A dof vector is an `array<int>` and "all dofs" (`FOR_ALL_DOFS`) is
    the sequence of used dofs of its administration, in the order the macro
    visits them.  Mesh traversals are given as the sequence of elements they
    visit. */
module AlbertaExtra {
  import opened Common

  /** `calcMaxIndex`: one more than the largest entry over the used dofs, where
      the running maximum starts at 0, so the result is a size that every entry
      lies below. */
  method CalcMaxIndex(vec: array<int>, dofs: seq<nat>) returns (m: int)
    requires DofsIn(dofs, vec.Length)
    ensures m >= 1
    ensures forall k :: 0 <= k < |dofs| ==> vec[dofs[k]] < m
    ensures m == 1 || exists k :: 0 <= k < |dofs| && m == vec[dofs[k]] + 1
  {
    var maxindex := 0;
    var i := 0;
    while i < |dofs|
      invariant 0 <= i <= |dofs|
      invariant maxindex >= 0
      invariant forall k :: 0 <= k < i ==> vec[dofs[k]] <= maxindex
      invariant maxindex == 0 || exists k :: 0 <= k < i && maxindex == vec[dofs[k]]
    {
      if vec[dofs[i]] > maxindex {
        maxindex := vec[dofs[i]];
      }
      i := i + 1;
    }
    m := maxindex + 1;
  }

  /** `clearDofVec`: every used dof's entry becomes 0; nothing else changes. */
  method ClearDofVec(vec: array<int>, dofs: seq<nat>)
    requires DofsIn(dofs, vec.Length)
    modifies vec
    ensures forall k :: 0 <= k < |dofs| ==> vec[dofs[k]] == 0
    ensures forall d :: 0 <= d < vec.Length && d !in dofs ==> vec[d] == old(vec[d])
  {
    var i := 0;
    while i < |dofs|
      invariant 0 <= i <= |dofs|
      invariant forall k :: 0 <= k < i ==> vec[dofs[k]] == 0
      invariant forall d :: 0 <= d < vec.Length && d !in dofs ==> vec[d] == old(vec[d])
    {
      vec[dofs[i]] := 0;
      i := i + 1;
    }
  }

  /** What a traversal needs of one element: its level and the dof of its
      centre node (`el->dof[ k ][ nv ]`). */
  datatype ElementInfo = ElementInfo(level: int, centerDof: nat)

  /** The centre dofs of all elements address a slot of a vector of length `n`. */
  predicate CentersIn(els: seq<ElementInfo>, n: int)
  {
    forall k :: 0 <= k < |els| ==> els[k].centerDof < n
  }

  /** The vector after `storeLevelOfElement` has visited `els` in order. */
  function StoreLevels(vals: seq<int>, els: seq<ElementInfo>): (r: seq<int>)
    requires CentersIn(els, |vals|)
    ensures |r| == |vals|
    decreases |els|
  {
    if els == [] then vals
    else
      var prev := StoreLevels(vals, els[..|els| - 1]);
      var e := els[|els| - 1];
      if e.level <= 0 then prev else prev[e.centerDof := e.level]
  }

  /** No element of positive level has `d` as its centre dof. */
  predicate Unowned(els: seq<ElementInfo>, d: nat)
  {
    forall k :: 0 <= k < |els| && els[k].centerDof == d ==> els[k].level <= 0
  }

  /** Element `k` has positive level and is the last such element with its centre dof. */
  predicate LastOwner(els: seq<ElementInfo>, k: nat)
    requires k < |els|
  {
    els[k].level > 0 && forall j :: k < j < |els| && els[j].centerDof == els[k].centerDof ==> els[j].level <= 0
  }

  /** After the traversal, a slot that no element of positive level owns keeps
      its old value, and a slot owned by an element of positive level holds the
      level of the last such element visited. */
  lemma {:induction false} StoreLevelsAt(vals: seq<int>, els: seq<ElementInfo>)
    requires CentersIn(els, |vals|)
    ensures forall d :: 0 <= d < |vals| && Unowned(els, d) ==> StoreLevels(vals, els)[d] == vals[d]
    ensures forall k :: 0 <= k < |els| && LastOwner(els, k) ==> StoreLevels(vals, els)[els[k].centerDof] == els[k].level
    decreases |els|
  {
    if els != [] {
      var n := |els|;
      var init := els[..n - 1];
      StoreLevelsAt(vals, init);
      forall d | 0 <= d < |vals| && Unowned(els, d) ensures Unowned(init, d) {
        forall k | 0 <= k < |init| && init[k].centerDof == d ensures init[k].level <= 0 {
          assert init[k] == els[k];
        }
      }
      forall k | 0 <= k < n - 1 && LastOwner(els, k) ensures LastOwner(init, k) {
        forall j | k < j < |init| && init[j].centerDof == init[k].centerDof ensures init[j].level <= 0 {
          assert init[j] == els[j] && init[k] == els[k];
        }
      }
    }
  }

  /** A handle on an ALBERTA element. */
  type ElementRef = nat
  /** A handle on an ALBERTA mesh. */
  type MeshRef = nat
  /** A handle on the user's data handler (the `void *` the registry stores). */
  type HandlerRef = nat

  /** Which static `apply` a function pointer of the registry points to. */
  datatype Dispatcher = RefinementApply | CoarseningApply

  /** A call of the data handler's hook that the registry makes. */
  datatype HandlerCall =
    | PostRefinementCall(handler: HandlerRef, element: ElementRef)
    | PreCoarseningCall(handler: HandlerRef, element: ElementRef)

  /** `Refinement<H>::apply` and `Coarsening<H>::apply`: cast back and call the handler. */
  function Dispatch(d: Dispatcher, handler: HandlerRef, el: ElementRef): HandlerCall
  {
    match d
    case RefinementApply => PostRefinementCall(handler, el)
    case CoarseningApply => PreCoarseningCall(handler, el)
  }

  /** The variables of namespace `AlbertHelp` that the traversal call-backs
      communicate through: `Albert_MaxLevel_help` and `elNewCheck`. */
  class AlbertHelpGlobals {
    var maxLevelHelp: int
    var elNewCheck: array?<int>

    constructor ()
      ensures maxLevelHelp == -1 && elNewCheck == null
    {
      maxLevelHelp := -1;
      elNewCheck := null;
    }

    /** `calcmxl`: raise the running maximum to the visited element's level. */
    method Calcmxl(level: int)
      modifies this`maxLevelHelp
      ensures maxLevelHelp == if old(maxLevelHelp) < level then level else old(maxLevelHelp)
    {
      if maxLevelHelp < level {
        maxLevelHelp := level;
      }
    }

    /** `calcMaxLevel`: reset the running maximum to -1, visit every leaf element,
        and return the maximum.  The assertion that some element raised it
        becomes the requirement that there is a leaf. */
    method CalcMaxLevel(leafLevels: seq<nat>) returns (m: int)
      requires |leafLevels| > 0
      modifies this`maxLevelHelp
      ensures m == maxLevelHelp
      ensures m in leafLevels && forall k :: 0 <= k < |leafLevels| ==> leafLevels[k] <= m
    {
      maxLevelHelp := -1;
      var i := 0;
      while i < |leafLevels|
        invariant 0 <= i <= |leafLevels|
        invariant forall k :: 0 <= k < i ==> leafLevels[k] <= maxLevelHelp
        invariant if i == 0 then maxLevelHelp == -1 else maxLevelHelp in leafLevels[..i]
      {
        Calcmxl(leafLevels[i]);
        i := i + 1;
      }
      assert leafLevels[..i] == leafLevels;
      m := maxLevelHelp;
    }

    /** `storeLevelOfElement`: write the level into the element's centre slot of
        `elNewCheck`, but only for levels above 0. */
    method StoreLevelOfElement(el: ElementInfo)
      requires elNewCheck != null && el.centerDof < elNewCheck.Length
      modifies elNewCheck
      ensures elNewCheck[..] == if el.level <= 0 then old(elNewCheck[..]) else old(elNewCheck[..])[el.centerDof := el.level]
    {
      if el.level <= 0 {
        return;
      }
      elNewCheck[el.centerDof] := el.level;
    }

    /** `restoreElNewCheck`: point `elNewCheck` at the given vector, which must
        not be null, store the level of every element in pre-order, and reset
        `elNewCheck` to null. */
    method RestoreElNewCheck(elNChk: array?<int>, elements: seq<ElementInfo>)
      requires elNChk != null && CentersIn(elements, elNChk.Length)
      modifies this`elNewCheck, elNChk
      ensures elNewCheck == null
      ensures elNChk[..] == StoreLevels(old(elNChk[..]), elements)
    {
      elNewCheck := elNChk;
      var i := 0;
      while i < |elements|
        invariant 0 <= i <= |elements|
        invariant elNewCheck == elNChk
        invariant elNChk[..] == StoreLevels(old(elNChk[..]), elements[..i])
      {
        assert elements[..i + 1][..i] == elements[..i];
        StoreLevelOfElement(elements[i]);
        i := i + 1;
      }
      assert elements[..i] == elements;
      elNewCheck := null;
    }
  }

  /** The `MeshCallBack` registry: the mesh it is locked to, the data handler,
      and the two dispatch function pointers; `None` stands for a null pointer. */
  class MeshCallBack {
    var mesh: Option<MeshRef>
    var dataHandler: Option<HandlerRef>
    var postRefinement: Option<Dispatcher>
    var preCoarsening: Option<Dispatcher>

    /** The only two states `reset` and `setPointers` leave behind: everything
        null, or a handler with both dispatchers installed. */
    ghost predicate Valid()
      reads this
    {
      || (dataHandler.None? && postRefinement.None? && preCoarsening.None? && mesh.None?)
      || (dataHandler.Some? && postRefinement == Some(RefinementApply) && preCoarsening == Some(CoarseningApply))
    }

    constructor ()
      ensures Valid() && mesh.None? && dataHandler.None? && postRefinement.None? && preCoarsening.None?
    {
      mesh, dataHandler, postRefinement, preCoarsening := None, None, None, None;
    }

    /** `reset`: all four pointers become null. */
    method Reset()
      modifies this
      ensures Valid() && mesh.None? && dataHandler.None? && postRefinement.None? && preCoarsening.None?
    {
      mesh := None;
      dataHandler := None;
      postRefinement := None;
      preCoarsening := None;
    }

    /** `setPointers`: lock to the mesh, record the handler, install both dispatchers. */
    method SetPointers(m: Option<MeshRef>, handler: HandlerRef)
      modifies this
      ensures Valid()
      ensures mesh == m && dataHandler == Some(handler)
      ensures postRefinement == Some(RefinementApply) && preCoarsening == Some(CoarseningApply)
    {
      mesh := m;
      dataHandler := Some(handler);
      postRefinement := Some(RefinementApply);
      preCoarsening := Some(CoarseningApply);
    }

    /** `postRefinement(el)`: the source asserts that `preCoarsening_` is set
        (not `postRefinement_`) and then calls through `postRefinement_`; in
        every state the registry can be in, that also means `postRefinement_` is
        set, so the call reaches the handler's `postRefinement`. */
    method PostRefinement(el: ElementRef) returns (call: HandlerCall)
      requires Valid() && preCoarsening.Some?
      ensures dataHandler.Some? && call == PostRefinementCall(dataHandler.value, el)
    {
      call := Dispatch(postRefinement.value, dataHandler.value, el);
    }

    /** `preCoarsening(el)`: assert `preCoarsening_` is set and call through it. */
    method PreCoarsening(el: ElementRef) returns (call: HandlerCall)
      requires Valid() && preCoarsening.Some?
      ensures dataHandler.Some? && call == PreCoarseningCall(dataHandler.value, el)
    {
      call := Dispatch(preCoarsening.value, dataHandler.value, el);
    }
  }

  /** The call-back part of `refineCoordsAndRefineCallBack`: with a handler
      registered, call its `postRefinement` once for each of the `ref` elements
      of the refinement list, in order; without one, call nothing.  `vectorMesh`
      is the mesh of the coordinate vector, which must be the registry's. */
  method RefineCallBack(callBack: MeshCallBack, vectorMesh: MeshRef, list: seq<ElementRef>, ref: int)
      returns (calls: seq<HandlerCall>)
    requires callBack.Valid()
    requires 0 < ref <= |list|
    requires callBack.dataHandler.Some? ==> callBack.mesh == Some(vectorMesh)
    ensures callBack.dataHandler.None? ==> calls == []
    ensures callBack.dataHandler.Some? ==>
      |calls| == ref && forall i :: 0 <= i < ref ==> calls[i] == PostRefinementCall(callBack.dataHandler.value, list[i])
  {
    calls := [];
    if callBack.dataHandler.Some? {
      var i := 0;
      while i < ref
        invariant 0 <= i <= ref
        invariant |calls| == i
        invariant forall j :: 0 <= j < i ==> calls[j] == PostRefinementCall(callBack.dataHandler.value, list[j])
      {
        var c := callBack.PostRefinement(list[i]);
        calls := calls + [c];
        i := i + 1;
      }
    }
  }

  /** `coarseCallBack`: with a handler registered (and then `ref > 0`), call its
      `preCoarsening` once for each of the `ref` elements of the list, in order;
      without one, call nothing. */
  method CoarseCallBack(callBack: MeshCallBack, vectorMesh: MeshRef, list: seq<ElementRef>, ref: int)
      returns (calls: seq<HandlerCall>)
    requires callBack.Valid()
    requires ref <= |list|
    requires callBack.dataHandler.Some? ==> callBack.mesh == Some(vectorMesh) && ref > 0
    ensures callBack.dataHandler.None? ==> calls == []
    ensures callBack.dataHandler.Some? ==>
      |calls| == ref && forall i :: 0 <= i < ref ==> calls[i] == PreCoarseningCall(callBack.dataHandler.value, list[i])
  {
    calls := [];
    if callBack.dataHandler.Some? {
      var i := 0;
      while i < ref
        invariant 0 <= i <= ref
        invariant |calls| == i
        invariant forall j :: 0 <= j < i ==> calls[j] == PreCoarseningCall(callBack.dataHandler.value, list[j])
      {
        var c := callBack.PreCoarsening(list[i]);
        calls := calls + [c];
        i := i + 1;
      }
    }
  }
}
