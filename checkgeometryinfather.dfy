/** The non-geometric half of the grid test `checkGeometryInFather`: for
    every element of levels 1 .. maxLevel it walks the father chain, checking
    at each step that the entity is found among its father's sons and that no
    other son carries its id, and it walks the element's descendants, checking
    that each one's level is the length of its father chain and that a leaf
    has none.

    The grid hierarchy is abstract: a sequence of elements, each with a level,
    an optional father, its children, a leaf flag and its local id, and the
    element lists of each level.  A father is stored before its children, which
    keeps every father chain finite.  A hierarchic iterator is the pre-order
    sequence `Descendants`. */
module CheckGeometryInFather {
  import opened Common

  datatype Element = Element(level: int, father: Option<nat>, children: seq<nat>, isLeaf: bool, id: int)

  /** The elements, the level-iterator order of each level 0 .. maxLevel, and maxLevel. */
  datatype Hierarchy = Hierarchy(elements: seq<Element>, levels: seq<seq<nat>>, maxLevel: int)

  const LevelZeroMessage: string := "A level zero entity returns hasFather()=true."
  const SameIdMessage: string := "Two different entities have the same id."
  const NotFoundMessage: string := "Cannot find child in its own father."
  const LeafMessage: string := "leaf entity has children ==> entity is not leaf"
  const CountCondition: string := "count == 0"

  /** References stay inside the hierarchy, a father comes before its child
      and a child after its father, and every level of 0 .. maxLevel is listed. */
  ghost predicate WellFormed(h: Hierarchy)
  {
    && 0 <= h.maxLevel
    && |h.levels| == h.maxLevel + 1
    && (forall i, k :: 0 <= i < |h.levels| && 0 <= k < |h.levels[i]| ==> h.levels[i][k] < |h.elements|)
    && (forall n :: 0 <= n < |h.elements| && h.elements[n].father.Some? ==> h.elements[n].father.value < n)
    && (forall n, k :: 0 <= n < |h.elements| && 0 <= k < |h.elements[n].children| ==>
          n < h.elements[n].children[k] < |h.elements|)
  }

  predicate HasFather(h: Hierarchy, n: nat)
    requires n < |h.elements|
  {
    h.elements[n].father.Some?
  }

  function FatherOf(h: Hierarchy, n: nat): (f: nat)
    requires WellFormed(h) && n < |h.elements| && HasFather(h, n)
    ensures f < n
  {
    h.elements[n].father.value
  }

  /** The hierarchic iterator over the subtrees of `cs`, stopping below level `mxl`. */
  function DescendantsOf(h: Hierarchy, cs: seq<nat>, mxl: int, lo: nat): (r: seq<nat>)
    requires WellFormed(h) && forall k :: 0 <= k < |cs| ==> lo < cs[k] < |h.elements|
    ensures forall k :: 0 <= k < |r| ==> lo < r[k] < |h.elements|
    decreases |h.elements| - lo, |cs|
  {
    if cs == [] then []
    else
      var c := cs[0];
      (if h.elements[c].level <= mxl then [c] + DescendantsOf(h, h.elements[c].children, mxl, c) else [])
      + DescendantsOf(h, cs[1..], mxl, lo)
  }

  /** `hbegin(mxl) .. hend(mxl)` of element `n`: its descendants of level at most `mxl`, in pre-order. */
  function Descendants(h: Hierarchy, n: nat, mxl: int): (r: seq<nat>)
    requires WellFormed(h) && n < |h.elements|
    ensures forall k :: 0 <= k < |r| ==> n < r[k] < |h.elements|
  {
    DescendantsOf(h, h.elements[n].children, mxl, n)
  }

  /** The number of father steps from `n` up to an element without a father. */
  function ChainDepth(h: Hierarchy, n: nat): (d: nat)
    requires WellFormed(h) && n < |h.elements|
    ensures d <= n
    ensures d == 0 <==> !HasFather(h, n)
    decreases n
  {
    if HasFather(h, n) then 1 + ChainDepth(h, FatherOf(h, n)) else 0
  }

  /** The sons of `a`'s father as the father loop visits them. */
  function Sons(h: Hierarchy, a: nat): (r: seq<nat>)
    requires WellFormed(h) && a < |h.elements| && HasFather(h, a)
  {
    var g := FatherOf(h, a);
    Descendants(h, g, h.elements[g].level + 1)
  }

  /** One step of the father loop on `a`, as a value: a son other than `a`
      with `a`'s id is reported wherever it stands; otherwise `a` must be among the sons. */
  ghost function StepCheck(h: Hierarchy, a: nat): (r: Outcome)
    requires WellFormed(h) && a < |h.elements| && HasFather(h, a)
    ensures r == Pass || r == Fail(GridError(SameIdMessage)) || r == Fail(GridError(NotFoundMessage))
    ensures r == Pass ==> a in Sons(h, a)
    ensures r == Fail(GridError(NotFoundMessage)) ==> a !in Sons(h, a)
  {
    var sons := Sons(h, a);
    if exists k :: 0 <= k < |sons| && sons[k] != a && h.elements[sons[k]].id == h.elements[a].id then
      Fail(GridError(SameIdMessage))
    else if a !in sons then
      Fail(GridError(NotFoundMessage))
    else
      Pass
  }

  /** The father loop started at `f`: the first failing step, or Pass. */
  ghost function ChainCheck(h: Hierarchy, f: nat): (r: Outcome)
    requires WellFormed(h) && f < |h.elements|
    ensures r == Pass || r == Fail(GridError(LevelZeroMessage))
         || r == Fail(GridError(SameIdMessage)) || r == Fail(GridError(NotFoundMessage))
    ensures !HasFather(h, f) ==> r == Pass
    decreases f
  {
    if !HasFather(h, f) then Pass
    else if h.elements[f].level == 0 then Fail(GridError(LevelZeroMessage))
    else if StepCheck(h, f) != Pass then StepCheck(h, f)
    else ChainCheck(h, FatherOf(h, f))
  }

  /** The hierarchy check of element `e`. */
  ghost function HierarchyCheck(h: Hierarchy, e: nat): (r: Outcome)
    requires WellFormed(h) && e < |h.elements|
    ensures r == Pass || r == Fail(AssertionFailed(CountCondition)) || r == Fail(GridError(LeafMessage))
    ensures r == Pass ==> !(h.elements[e].isLeaf && |Descendants(h, e, h.maxLevel)| > 0)
  {
    var sons := Descendants(h, e, h.maxLevel);
    if exists k :: 0 <= k < |sons| && h.elements[sons[k]].level != ChainDepth(h, sons[k]) then
      Fail(AssertionFailed(CountCondition))
    else if h.elements[e].isLeaf && |sons| > 0 then
      Fail(GridError(LeafMessage))
    else
      Pass
  }

  /** Everything checked for one element, in the test's order. */
  ghost function ElementCheck(h: Hierarchy, e: nat): Outcome
    requires WellFormed(h) && e < |h.elements|
  {
    var chain := if HasFather(h, e) then ChainCheck(h, FatherOf(h, e)) else Pass;
    if chain != Pass then chain else HierarchyCheck(h, e)
  }

  /** The elements of one level, in order: the first failure, or Pass. */
  ghost function CheckList(h: Hierarchy, es: seq<nat>): Outcome
    requires WellFormed(h) && forall k :: 0 <= k < |es| ==> es[k] < |h.elements|
  {
    if es == [] then Pass
    else if ElementCheck(h, es[0]) != Pass then ElementCheck(h, es[0])
    else CheckList(h, es[1..])
  }

  /** Levels i .. maxLevel, in order: the first failure, or Pass. */
  ghost function CheckLevels(h: Hierarchy, i: int): Outcome
    requires WellFormed(h) && 0 <= i
    decreases h.maxLevel + 1 - i
  {
    if i > h.maxLevel then Pass
    else if CheckList(h, h.levels[i]) != Pass then CheckList(h, h.levels[i])
    else CheckLevels(h, i + 1)
  }

  /** The whole test's outcome as a value; a grid with one level is skipped. */
  ghost function Check(h: Hierarchy): (r: Outcome)
    requires WellFormed(h)
    ensures h.maxLevel == 0 ==> r == Pass
  {
    if h.maxLevel == 0 then Pass else CheckLevels(h, 1)
  }

  // ---------------------------------------------------------------------------
  // What "passes" means, stated without the order of the checks.

  /** `f`, its father, its father's father, ... up to an element without a father. */
  function Ancestors(h: Hierarchy, f: nat): (r: seq<nat>)
    requires WellFormed(h) && f < |h.elements|
    ensures |r| == ChainDepth(h, f) + 1 && r[0] == f
    ensures forall k :: 0 <= k < |r| ==> r[k] < |h.elements|
    decreases f
  {
    if HasFather(h, f) then [f] + Ancestors(h, FatherOf(h, f)) else [f]
  }

  /** Entity `a` has a father, is not on level 0, is found among its
      father's sons, and no other son has its id. */
  ghost predicate StepOk(h: Hierarchy, a: nat)
    requires WellFormed(h) && a < |h.elements| && HasFather(h, a)
  {
    && h.elements[a].level != 0
    && a in Sons(h, a)
    && forall k :: 0 <= k < |Sons(h, a)| && Sons(h, a)[k] != a ==> h.elements[Sons(h, a)[k]].id != h.elements[a].id
  }

  /** Every ancestor from `f` up that has a father passes its step. */
  ghost predicate ChainOk(h: Hierarchy, f: nat)
    requires WellFormed(h) && f < |h.elements|
  {
    forall k :: 0 <= k < |Ancestors(h, f)| && HasFather(h, Ancestors(h, f)[k]) ==> StepOk(h, Ancestors(h, f)[k])
  }

  /** One element passes: its father chain is consistent, the level of each
      of its descendants is the length of that descendant's father chain, and
      as a leaf it has no descendants. */
  ghost predicate ElementOk(h: Hierarchy, e: nat)
    requires WellFormed(h) && e < |h.elements|
  {
    && (HasFather(h, e) ==> ChainOk(h, FatherOf(h, e)))
    && (forall k :: 0 <= k < |Descendants(h, e, h.maxLevel)| ==>
          h.elements[Descendants(h, e, h.maxLevel)[k]].level == ChainDepth(h, Descendants(h, e, h.maxLevel)[k]))
    && (h.elements[e].isLeaf ==> Descendants(h, e, h.maxLevel) == [])
  }

  /** The grid passes: it has one level only, or every element of levels
      1 .. maxLevel passes. */
  ghost predicate Consistent(h: Hierarchy)
    requires WellFormed(h)
  {
    h.maxLevel == 0 ||
    forall i, k :: 1 <= i <= h.maxLevel && 0 <= k < |h.levels[i]| ==> ElementOk(h, h.levels[i][k])
  }

  lemma StepCheckPass(h: Hierarchy, a: nat)
    requires WellFormed(h) && a < |h.elements| && HasFather(h, a) && h.elements[a].level != 0
    ensures StepCheck(h, a) == Pass <==> StepOk(h, a)
  {
  }

  lemma {:induction false} ChainCheckPass(h: Hierarchy, f: nat)
    requires WellFormed(h) && f < |h.elements|
    ensures ChainCheck(h, f) == Pass <==> ChainOk(h, f)
    decreases f
  {
    var anc := Ancestors(h, f);
    if HasFather(h, f) {
      var g := FatherOf(h, f);
      ChainCheckPass(h, g);
      var up := Ancestors(h, g);
      assert anc == [f] + up;
      if ChainOk(h, f) {
        assert StepOk(h, f) by { assert anc[0] == f; }
        forall k | 0 <= k < |up| && HasFather(h, up[k]) ensures StepOk(h, up[k]) {
          assert anc[k + 1] == up[k];
        }
        StepCheckPass(h, f);
      }
      if ChainCheck(h, f) == Pass {
        StepCheckPass(h, f);
        forall k | 0 <= k < |anc| && HasFather(h, anc[k]) ensures StepOk(h, anc[k]) {
          if k > 0 { assert anc[k] == up[k - 1]; }
        }
      }
    }
  }

  lemma HierarchyCheckPass(h: Hierarchy, e: nat)
    requires WellFormed(h) && e < |h.elements|
    ensures HierarchyCheck(h, e) == Pass <==>
      && (forall k :: 0 <= k < |Descendants(h, e, h.maxLevel)| ==>
            h.elements[Descendants(h, e, h.maxLevel)[k]].level == ChainDepth(h, Descendants(h, e, h.maxLevel)[k]))
      && (h.elements[e].isLeaf ==> Descendants(h, e, h.maxLevel) == [])
  {
  }

  lemma ElementCheckPass(h: Hierarchy, e: nat)
    requires WellFormed(h) && e < |h.elements|
    ensures ElementCheck(h, e) == Pass <==> ElementOk(h, e)
  {
    if HasFather(h, e) { ChainCheckPass(h, FatherOf(h, e)); }
    HierarchyCheckPass(h, e);
  }

  lemma {:induction false} CheckListPass(h: Hierarchy, es: seq<nat>)
    requires WellFormed(h) && forall k :: 0 <= k < |es| ==> es[k] < |h.elements|
    ensures CheckList(h, es) == Pass <==> forall k :: 0 <= k < |es| ==> ElementOk(h, es[k])
    decreases |es|
  {
    if es != [] {
      var tail := es[1..];
      ElementCheckPass(h, es[0]);
      CheckListPass(h, tail);
      if CheckList(h, es) == Pass {
        forall k | 0 <= k < |es| ensures ElementOk(h, es[k]) {
          if k > 0 { assert es[k] == tail[k - 1]; }
        }
      }
      if forall k :: 0 <= k < |es| ==> ElementOk(h, es[k]) {
        forall k | 0 <= k < |tail| ensures ElementOk(h, tail[k]) {
          assert tail[k] == es[k + 1];
        }
      }
    }
  }

  lemma {:induction false} CheckLevelsPass(h: Hierarchy, i: int)
    requires WellFormed(h) && 1 <= i
    ensures CheckLevels(h, i) == Pass <==>
      forall j, k :: i <= j <= h.maxLevel && 0 <= k < |h.levels[j]| ==> ElementOk(h, h.levels[j][k])
    decreases h.maxLevel + 1 - i
  {
    if i <= h.maxLevel {
      CheckListPass(h, h.levels[i]);
      CheckLevelsPass(h, i + 1);
    }
  }

  /** The test passes exactly on consistent hierarchies. */
  lemma CheckPassIffConsistent(h: Hierarchy)
    requires WellFormed(h)
    ensures Check(h) == Pass <==> Consistent(h)
  {
    if h.maxLevel != 0 { CheckLevelsPass(h, 1); }
  }

  /** The test's five complaints. */
  predicate Known(o: Outcome)
  {
    o.Fail? ==> o.error in {GridError(LevelZeroMessage), GridError(SameIdMessage), GridError(NotFoundMessage),
                            GridError(LeafMessage), AssertionFailed(CountCondition)}
  }

  lemma {:induction false} ChainFailureIsKnown(h: Hierarchy, f: nat)
    requires WellFormed(h) && f < |h.elements|
    ensures Known(ChainCheck(h, f))
    decreases f
  {
    if HasFather(h, f) { ChainFailureIsKnown(h, FatherOf(h, f)); }
  }

  lemma {:induction false} ListFailureIsKnown(h: Hierarchy, es: seq<nat>)
    requires WellFormed(h) && forall k :: 0 <= k < |es| ==> es[k] < |h.elements|
    ensures Known(CheckList(h, es))
    decreases |es|
  {
    if es != [] {
      if HasFather(h, es[0]) { ChainFailureIsKnown(h, FatherOf(h, es[0])); }
      ListFailureIsKnown(h, es[1..]);
    }
  }

  lemma {:induction false} LevelsFailureIsKnown(h: Hierarchy, i: int)
    requires WellFormed(h) && 0 <= i
    ensures Known(CheckLevels(h, i))
    decreases h.maxLevel + 1 - i
  {
    if i <= h.maxLevel {
      ListFailureIsKnown(h, h.levels[i]);
      LevelsFailureIsKnown(h, i + 1);
    }
  }

  /** A failure is always one of the test's five complaints. */
  lemma FailureIsKnown(h: Hierarchy)
    requires WellFormed(h)
    ensures Known(Check(h))
  {
    LevelsFailureIsKnown(h, 1);
  }

  // ---------------------------------------------------------------------------
  // The test's loops.

  /** One step of the father loop: run through the sons of `a`'s father,
      complaining at the first other son with `a`'s id, and complain when `a`
      was not among them. */
  method ScanSons(h: Hierarchy, a: nat) returns (r: Outcome)
    requires WellFormed(h) && a < |h.elements| && HasFather(h, a)
    ensures r == StepCheck(h, a)
  {
    var sons := Sons(h, a);
    var foundChild := false;
    var j := 0;
    while j < |sons|
      invariant 0 <= j <= |sons|
      invariant foundChild ==> a in sons
      invariant !foundChild ==> forall k :: 0 <= k < j ==> sons[k] != a
      invariant forall k :: 0 <= k < j && sons[k] != a ==> h.elements[sons[k]].id != h.elements[a].id
    {
      if a != sons[j] {
        if h.elements[a].id == h.elements[sons[j]].id {
          assert sons[j] != a && h.elements[sons[j]].id == h.elements[a].id;
          return Fail(GridError(SameIdMessage));
        }
      } else {
        foundChild := true;
      }
      j := j + 1;
    }
    if !foundChild {
      return Fail(GridError(NotFoundMessage));
    }
    return Pass;
  }

  /** The father loop of element `e`. */
  method CheckFatherChain(h: Hierarchy, e: nat) returns (r: Outcome)
    requires WellFormed(h) && e < |h.elements|
    ensures r == (if HasFather(h, e) then ChainCheck(h, FatherOf(h, e)) else Pass)
  {
    if !HasFather(h, e) {
      return Pass;
    }
    var father: nat := FatherOf(h, e);
    while HasFather(h, father)
      invariant father < |h.elements|
      invariant ChainCheck(h, FatherOf(h, e)) == ChainCheck(h, father)
      decreases father
    {
      if h.elements[father].level == 0 {
        return Fail(GridError(LevelZeroMessage));
      }
      var step := ScanSons(h, father);
      if step != Pass {
        return step;
      }
      father := FatherOf(h, father);
    }
    return Pass;
  }

  /** The `count` loop for one descendant: its level minus the number of father steps. */
  method CountDown(h: Hierarchy, s: nat) returns (count: int)
    requires WellFormed(h) && s < |h.elements|
    ensures count == h.elements[s].level - ChainDepth(h, s)
  {
    count := h.elements[s].level;
    if HasFather(h, s) {
      var father: nat := FatherOf(h, s);
      count := count - 1;
      while HasFather(h, father)
        invariant father < |h.elements|
        invariant count == h.elements[s].level - (ChainDepth(h, s) - ChainDepth(h, father))
        decreases father
      {
        father := FatherOf(h, father);
        count := count - 1;
      }
    }
  }

  /** The hierarchy check of element `e`: every descendant up to maxLevel
      must have `count == 0`, and a leaf must have none. */
  method CheckHierarchy(h: Hierarchy, e: nat) returns (r: Outcome)
    requires WellFormed(h) && e < |h.elements|
    ensures r == HierarchyCheck(h, e)
  {
    var mxl := h.maxLevel;
    var countChildren := 0;
    var sons := Descendants(h, e, mxl);
    var j := 0;
    while j < |sons|
      invariant 0 <= j <= |sons| && countChildren == j
      invariant forall k :: 0 <= k < j ==> h.elements[sons[k]].level == ChainDepth(h, sons[k])
    {
      countChildren := countChildren + 1;
      var count := CountDown(h, sons[j]);
      if count != 0 {
        return Fail(AssertionFailed(CountCondition));
      }
      j := j + 1;
    }
    if h.elements[e].isLeaf && countChildren > 0 {
      return Fail(GridError(LeafMessage));
    }
    return Pass;
  }

  /** `checkGeometryInFather`, without the geometric checks. */
  method CheckGeometryInFather(h: Hierarchy) returns (r: Outcome)
    requires WellFormed(h)
    ensures r == Check(h)
    ensures r == Pass <==> Consistent(h)
  {
    CheckPassIffConsistent(h);
    if h.maxLevel == 0 {
      return Pass;
    }
    var i := 1;
    while i <= h.maxLevel
      invariant 1 <= i <= h.maxLevel + 1
      invariant CheckLevels(h, i) == CheckLevels(h, 1)
      decreases h.maxLevel + 1 - i
    {
      var es := h.levels[i];
      var j := 0;
      while j < |es|
        invariant 0 <= j <= |es|
        invariant CheckList(h, es[j..]) == CheckList(h, es)
      {
        var e := es[j];
        assert es[j..][0] == e && es[j..][1..] == es[j + 1..];
        var chain := CheckFatherChain(h, e);
        if chain != Pass {
          return chain;
        }
        var hierarchy := CheckHierarchy(h, e);
        if hierarchy != Pass {
          return hierarchy;
        }
        j := j + 1;
      }
      i := i + 1;
    }
    return Pass;
  }
}
