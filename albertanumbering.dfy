/** The bookkeeping behind the ALBERTA hierarchic index set, stated on values.
    For one numbered codimension the state is the index manager's `StackState`,
    the dof vector `entityNumbers_[ codim ]` as a sequence `vals` (slot `d` holds
    the index of the entity whose dof is `d`), and the ghost set `live` of the
    dofs that currently belong to an entity.

    `RefineAll` and `CoarsenAll` are what the refine and coarsen hooks do to that
    state when the patch's internal sub-children have the dofs `dofs`, in the
    order `forEachInternalSubChild` visits them; `RefineAll` from a fresh manager
    is also what the initial numbering does. */
module AlbertaNumbering {
  import opened Common
  import opened IndexManagers

  /** The indices held by the live slots. */
  ghost function LiveValues(vals: seq<int>, live: set<nat>): set<int>
  {
    set d | d in live && d < |vals| :: vals[d]
  }

  /** The central invariant of one codimension: no two live slots share an
      index, no live slot holds an index that waits on the free stack, no index
      waits twice, and the live indices together with the waiting ones are
      exactly 0 .. size-1, where size is the manager's high-water mark. */
  ghost predicate Books(st: StackState, vals: seq<int>, live: set<nat>)
  {
    && 0 <= st.maxIndex
    && NoDup(st.free)
    && (forall d :: d in live ==> d < |vals|)
    && (forall d1, d2 :: d1 in live && d2 in live && d1 != d2 ==> vals[d1] != vals[d2])
    && (forall d, k :: d in live && 0 <= k < |st.free| ==> vals[d] != st.free[k])
    && LiveValues(vals, live) + Elems(st.free) == Range(st.maxIndex)
  }

  /** The refine hook (`RefineNumbering`): every dof, in order, gets the index
      of one fresh `getIndex` call. */
  function RefineAll(st: StackState, vals: seq<int>, dofs: seq<nat>): (r: (StackState, seq<int>))
    requires DofsIn(dofs, |vals|)
    ensures |r.1| == |vals|
    decreases |dofs|
  {
    if dofs == [] then (st, vals)
    else RefineAll(Get(st).1, vals[dofs[0] := Get(st).0], dofs[1..])
  }

  /** The coarsen hook (`CoarsenNumbering`): every dof, in order, gives its index
      back with `freeIndex`; with `poison` (a build without NDEBUG) the slot is
      then overwritten with -1. */
  function CoarsenAll(st: StackState, vals: seq<int>, dofs: seq<nat>, poison: bool): (r: (StackState, seq<int>))
    requires DofsIn(dofs, |vals|)
    ensures |r.1| == |vals|
    decreases |dofs|
  {
    if dofs == [] then (st, vals)
    else
      CoarsenAll(Free(st, vals[dofs[0]]), if poison then vals[dofs[0] := -1] else vals,
                 dofs[1..], poison)
  }

  /** The indices held by `dofs`, in order: what the coarsen hook pushes. */
  function Held(vals: seq<int>, dofs: seq<nat>): (r: seq<int>)
    requires DofsIn(dofs, |vals|)
    ensures |r| == |dofs| && forall k :: 0 <= k < |dofs| ==> r[k] == vals[dofs[k]]
  {
    seq(|dofs|, k requires 0 <= k < |dofs| => vals[dofs[k]])
  }

  /** In a sequence without duplicates the first element does not recur. */
  lemma HeadNotInTail<T>(s: seq<T>)
    requires NoDup(s) && s != []
    ensures s[0] !in s[1..]
  {
    forall j | 0 <= j < |s| - 1 ensures s[1..][j] != s[0] {
      assert s[1..][j] == s[j + 1];
    }
  }

  /** A fresh manager and no live dof satisfy the invariant. */
  lemma BooksInitial(vals: seq<int>)
    ensures Books(Initial, vals, {})
  {
    assert LiveValues(vals, {}) == {};
  }

  /** The invariant includes the index manager's own. */
  lemma BooksStackValid(st: StackState, vals: seq<int>, live: set<nat>)
    requires Books(st, vals, live)
    ensures StackValid(st)
  {
    forall k | 0 <= k < |st.free| ensures 0 <= st.free[k] < st.maxIndex {
      assert st.free[k] in Elems(st.free);
    }
  }

  /** A live slot holds an index that is in use. */
  lemma LiveIsInUse(st: StackState, vals: seq<int>, live: set<nat>, d: nat)
    requires Books(st, vals, live) && d in live
    ensures InUse(st, vals[d])
  {
    assert vals[d] in LiveValues(vals, live);
    forall k | 0 <= k < |st.free| ensures st.free[k] != vals[d] { }
  }

  /** Drawing one index for a dof that was not live keeps the invariant; the
      index drawn is held by no live slot. */
  lemma AllocPreserves(st: StackState, vals: seq<int>, live: set<nat>, d: nat)
    requires Books(st, vals, live) && d < |vals| && d !in live
    ensures Books(Get(st).1, vals[d := Get(st).0], live + {d})
    ensures Get(st).0 !in LiveValues(vals, live)
  {
    var v := Get(st).0;
    var st' := Get(st).1;
    var vals' := vals[d := v];
    var live' := live + {d};
    assert LiveValues(vals', live') == LiveValues(vals, live) + {v} by {
      forall x | x in LiveValues(vals, live) ensures x in LiveValues(vals', live') {
        var e :| e in live && e < |vals| && vals[e] == x;
        assert vals'[e] == x;
      }
      assert vals'[d] == v;
    }
    var n := |st.free|;
    if n > 0 {
      assert st.free == st'.free + [v];
      assert Elems(st.free) == Elems(st'.free) + {v} by {
        forall x | x in Elems(st.free) ensures x in Elems(st'.free) + {v} {
          var k :| 0 <= k < n && st.free[k] == x;
          if k < n - 1 { assert st'.free[k] == x; }
        }
      }
      forall k | 0 <= k < n - 1 ensures st'.free[k] != v {
        assert st'.free[k] == st.free[k];
      }
      assert v !in Elems(st'.free);
      forall e | e in live && e < |vals| ensures vals[e] != v {
        assert vals[e] != st.free[n - 1];
      }
      assert v !in LiveValues(vals, live);
      forall e, k | e in live' && 0 <= k < |st'.free| ensures vals'[e] != st'.free[k] {
        assert st'.free[k] == st.free[k];
      }
    } else {
      assert v == st.maxIndex;
      assert v !in LiveValues(vals, live) by { assert v !in Range(st.maxIndex); }
      assert Range(st'.maxIndex) == Range(st.maxIndex) + {v};
    }
    forall d1, d2 | d1 in live' && d2 in live' && d1 != d2 ensures vals'[d1] != vals'[d2] {
      if d1 == d || d2 == d {
        var e := if d1 == d then d2 else d1;
        assert vals'[e] == vals[e] && vals[e] in LiveValues(vals, live);
      }
    }
  }

  /** Giving back the index of a live dof keeps the invariant, whatever is then
      written into the slot. */
  lemma ReleasePreserves(st: StackState, vals: seq<int>, live: set<nat>, d: nat, x: int)
    requires Books(st, vals, live) && d in live
    ensures Books(Free(st, vals[d]), vals[d := x], live - {d})
  {
    var v := vals[d];
    var st' := Free(st, v);
    var vals' := vals[d := x];
    var live' := live - {d};
    assert LiveValues(vals, live) == LiveValues(vals', live') + {v} by {
      forall y | y in LiveValues(vals, live) ensures y in LiveValues(vals', live') + {v} {
        var e :| e in live && e < |vals| && vals[e] == y;
        if e != d { assert vals'[e] == y; }
      }
    }
    forall e | e in live' && e < |vals'| ensures vals'[e] != v {
      assert vals'[e] == vals[e];
    }
    assert v !in LiveValues(vals', live');
    assert Elems(st'.free) == Elems(st.free) + {v} by {
      forall y | y in Elems(st'.free) ensures y in Elems(st.free) + {v} {
        var k :| 0 <= k < |st'.free| && st'.free[k] == y;
        if k < |st.free| { assert st.free[k] == y; }
      }
      assert st'.free[|st.free|] == v;
      forall y | y in Elems(st.free) ensures y in Elems(st'.free) {
        var k :| 0 <= k < |st.free| && st.free[k] == y;
        assert st'.free[k] == y;
      }
    }
    forall a, b | 0 <= a < b < |st'.free| ensures st'.free[a] != st'.free[b] {
      if b == |st.free| { assert st'.free[a] == st.free[a]; }
    }
    forall e, k | e in live' && 0 <= k < |st'.free| ensures vals'[e] != st'.free[k] {
      assert vals'[e] == vals[e];
      if k < |st.free| { assert st'.free[k] == st.free[k]; }
    }
  }

  /** The refine hook rewrites exactly the slots of `dofs` and keeps the vector's length. */
  lemma {:induction false} RefineFrame(st: StackState, vals: seq<int>, dofs: seq<nat>)
    requires DofsIn(dofs, |vals|)
    ensures forall d :: 0 <= d < |vals| && d !in dofs ==> RefineAll(st, vals, dofs).1[d] == vals[d]
    decreases |dofs|
  {
    if dofs != [] {
      RefineFrame(Get(st).1, vals[dofs[0] := Get(st).0], dofs[1..]);
      assert dofs == [dofs[0]] + dofs[1..];
    }
  }

  /** The refine hook keeps the invariant: afterwards the new dofs are live too. */
  lemma {:induction false} RefinePreserves(st: StackState, vals: seq<int>, live: set<nat>, dofs: seq<nat>)
    requires Books(st, vals, live) && DofsIn(dofs, |vals|) && NoDup(dofs)
    requires forall k :: 0 <= k < |dofs| ==> dofs[k] !in live
    ensures Books(RefineAll(st, vals, dofs).0, RefineAll(st, vals, dofs).1, live + Elems(dofs))
    decreases |dofs|
  {
    if dofs == [] {
      assert Elems(dofs) == {};
    } else {
      var d, rest := dofs[0], dofs[1..];
      var st1, vals1, live1 := Get(st).1, vals[d := Get(st).0], live + {d};
      AllocPreserves(st, vals, live, d);
      forall k | 0 <= k < |rest| ensures rest[k] !in live1 {
        assert rest[k] == dofs[k + 1];
      }
      RefinePreserves(st1, vals1, live1, rest);
      ElemsSplit(dofs);
      assert RefineAll(st, vals, dofs) == RefineAll(st1, vals1, rest);
      assert live + Elems(dofs) == live1 + Elems(rest);
    }
  }

  /** The elements of a non-empty sequence are its head and those of its tail. */
  lemma ElemsSplit<T>(s: seq<T>)
    requires s != []
    ensures Elems(s) == {s[0]} + Elems(s[1..])
  {
    forall x | x in Elems(s) ensures x in {s[0]} + Elems(s[1..]) {
      var k :| 0 <= k < |s| && s[k] == x;
      if k > 0 { assert s[1..][k - 1] == x; }
    }
    forall x | x in Elems(s[1..]) ensures x in Elems(s) {
      var k :| 0 <= k < |s| - 1 && s[1..][k] == x;
      assert s[k + 1] == x;
    }
  }

  /** Freshness of the refine hook: the new indices differ from one another and
      from every index a live slot held before. */
  lemma RefineFresh(st: StackState, vals: seq<int>, live: set<nat>, dofs: seq<nat>)
    requires Books(st, vals, live) && DofsIn(dofs, |vals|) && NoDup(dofs)
    requires forall k :: 0 <= k < |dofs| ==> dofs[k] !in live
    ensures var r := RefineAll(st, vals, dofs).1;
      && (forall j, k :: 0 <= j < k < |dofs| ==> r[dofs[j]] != r[dofs[k]])
      && (forall k, d :: 0 <= k < |dofs| && d in live ==> r[dofs[k]] != vals[d])
  {
    RefinePreserves(st, vals, live, dofs);
    RefineFrame(st, vals, dofs);
    var r := RefineAll(st, vals, dofs).1;
    forall k, d | 0 <= k < |dofs| && d in live ensures r[dofs[k]] != vals[d] {
      assert d !in dofs;
      assert dofs[k] in Elems(dofs);
      assert r[d] == vals[d];
    }
    forall j, k | 0 <= j < k < |dofs| ensures r[dofs[j]] != r[dofs[k]] {
      assert dofs[j] in Elems(dofs) && dofs[k] in Elems(dofs);
    }
  }

  /** Initial numbering: starting from a manager with no waiting index and
      high-water mark `m`, the k-th dof visited gets index m + k. */
  lemma {:induction false} NumberInOrder(m: int, vals: seq<int>, dofs: seq<nat>)
    requires DofsIn(dofs, |vals|) && NoDup(dofs)
    ensures RefineAll(StackState([], m), vals, dofs).0 == StackState([], m + |dofs|)
    ensures forall k :: 0 <= k < |dofs| ==> RefineAll(StackState([], m), vals, dofs).1[dofs[k]] == m + k
    decreases |dofs|
  {
    if dofs != [] {
      var rest := dofs[1..];
      var vals1 := vals[dofs[0] := m];
      NumberInOrder(m + 1, vals1, rest);
      RefineFrame(StackState([], m + 1), vals1, rest);
      var r := RefineAll(StackState([], m), vals, dofs).1;
      forall k | 0 <= k < |dofs| ensures r[dofs[k]] == m + k {
        if k == 0 {
          HeadNotInTail(dofs);
        } else {
          assert rest[k - 1] == dofs[k];
        }
      }
    }
  }

  /** The coarsen hook rewrites only the slots of `dofs`: with the poison they
      hold -1, without it the vector is unchanged. */
  lemma {:induction false} CoarsenFrame(st: StackState, vals: seq<int>, dofs: seq<nat>, poison: bool)
    requires DofsIn(dofs, |vals|)
    ensures forall d :: 0 <= d < |vals| && d !in dofs ==> CoarsenAll(st, vals, dofs, poison).1[d] == vals[d]
    ensures poison ==> forall k :: 0 <= k < |dofs| ==> CoarsenAll(st, vals, dofs, poison).1[dofs[k]] == -1
    ensures !poison ==> CoarsenAll(st, vals, dofs, poison).1 == vals
    decreases |dofs|
  {
    if dofs != [] {
      var vals1 := if poison then vals[dofs[0] := -1] else vals;
      var rest := dofs[1..];
      CoarsenFrame(Free(st, vals[dofs[0]]), vals1, rest, poison);
      var r := CoarsenAll(st, vals, dofs, poison).1;
      assert dofs == [dofs[0]] + rest;
      if poison {
        forall k | 0 <= k < |dofs| ensures r[dofs[k]] == -1 {
          if k > 0 { assert rest[k - 1] == dofs[k]; }
          else if dofs[0] !in rest { } else {
            var j :| 0 <= j < |rest| && rest[j] == dofs[0];
          }
        }
      }
    }
  }

  /** The coarsen hook pushes the indices the dofs held, in order, and leaves the high-water mark alone. */
  lemma {:induction false} CoarsenPushes(st: StackState, vals: seq<int>, dofs: seq<nat>, poison: bool)
    requires DofsIn(dofs, |vals|) && NoDup(dofs)
    ensures CoarsenAll(st, vals, dofs, poison).0 == StackState(st.free + Held(vals, dofs), st.maxIndex)
    decreases |dofs|
  {
    if dofs != [] {
      var vals1 := if poison then vals[dofs[0] := -1] else vals;
      var rest := dofs[1..];
      var st1 := Free(st, vals[dofs[0]]);
      var h := Held(vals, dofs);
      assert CoarsenAll(st, vals, dofs, poison) == CoarsenAll(st1, vals1, rest, poison);
      CoarsenPushes(st1, vals1, rest, poison);
      HeldTail(vals, vals1, dofs);
      PushThenRest(st.free, h);
      assert st1 == StackState(st.free + [h[0]], st.maxIndex);
    }
  }

  /** Pushing the head of `h` and then the rest of it is pushing all of `h`. */
  lemma PushThenRest(a: seq<int>, h: seq<int>)
    requires h != []
    ensures (a + [h[0]]) + h[1..] == a + h
  {
    var l := (a + [h[0]]) + h[1..];
    forall k | 0 <= k < |l| ensures l[k] == (a + h)[k] {
      if k > |a| { assert l[k] == h[1..][k - |a| - 1]; }
    }
  }

  /** Rewriting only the first dof's slot leaves the held values of the other dofs alone. */
  lemma HeldTail(vals: seq<int>, vals1: seq<int>, dofs: seq<nat>)
    requires DofsIn(dofs, |vals|) && NoDup(dofs) && dofs != [] && |vals1| == |vals|
    requires forall d :: 0 <= d < |vals| && d != dofs[0] ==> vals1[d] == vals[d]
    ensures Held(vals1, dofs[1..]) == Held(vals, dofs)[1..]
  {
    var rest := dofs[1..];
    forall k | 0 <= k < |rest| ensures vals1[rest[k]] == vals[dofs[k + 1]] {
      assert rest[k] == dofs[k + 1] && dofs[k + 1] != dofs[0];
    }
  }

  /** The coarsen hook keeps the invariant: afterwards its dofs are no longer live. */
  lemma {:induction false} CoarsenPreserves(st: StackState, vals: seq<int>, live: set<nat>, dofs: seq<nat>, poison: bool)
    requires Books(st, vals, live) && DofsIn(dofs, |vals|) && NoDup(dofs)
    requires forall k :: 0 <= k < |dofs| ==> dofs[k] in live
    ensures Books(CoarsenAll(st, vals, dofs, poison).0, CoarsenAll(st, vals, dofs, poison).1, live - Elems(dofs))
    decreases |dofs|
  {
    if dofs == [] {
      assert Elems(dofs) == {};
      assert live - Elems(dofs) == live;
    } else {
      var x := if poison then -1 else vals[dofs[0]];
      ReleasePreserves(st, vals, live, dofs[0], x);
      var vals1 := vals[dofs[0] := x];
      assert vals1 == (if poison then vals[dofs[0] := -1] else vals);
      var rest := dofs[1..];
      forall k | 0 <= k < |rest| ensures rest[k] in live - {dofs[0]} {
        assert rest[k] == dofs[k + 1];
      }
      CoarsenPreserves(Free(st, vals[dofs[0]]), vals1, live - {dofs[0]}, rest, poison);
      assert Elems(dofs) == {dofs[0]} + Elems(rest) by {
        forall y | y in Elems(dofs) ensures y in {dofs[0]} + Elems(rest) {
          var k :| 0 <= k < |dofs| && dofs[k] == y;
          if k > 0 { assert rest[k - 1] == y; }
        }
        forall y | y in Elems(rest) ensures y in Elems(dofs) {
          var k :| 0 <= k < |rest| && rest[k] == y;
          assert dofs[k + 1] == y;
        }
      }
      assert live - {dofs[0]} - Elems(rest) == live - Elems(dofs);
    }
  }

  /** Refining right after pushing `p` onto the free stack pops those indices in
      reverse order and leaves the stack as it was before the pushes. */
  lemma {:induction false} PopPushed(free: seq<int>, m: int, p: seq<int>, vals: seq<int>, dofs: seq<nat>)
    requires DofsIn(dofs, |vals|) && NoDup(dofs) && |dofs| == |p|
    ensures RefineAll(StackState(free + p, m), vals, dofs).0 == StackState(free, m)
    ensures forall k :: 0 <= k < |dofs| ==> RefineAll(StackState(free + p, m), vals, dofs).1[dofs[k]] == p[|p| - 1 - k]
    decreases |dofs|
  {
    if dofs != [] {
      var n := |p|;
      var st := StackState(free + p, m);
      assert Get(st) == (p[n - 1], StackState(free + p[..n - 1], m)) by {
        assert (free + p)[..|free + p| - 1] == free + p[..n - 1];
      }
      var vals1 := vals[dofs[0] := p[n - 1]];
      var rest := dofs[1..];
      PopPushed(free, m, p[..n - 1], vals1, rest);
      RefineFrame(StackState(free + p[..n - 1], m), vals1, rest);
      var r := RefineAll(st, vals, dofs).1;
      forall k | 0 <= k < |dofs| ensures r[dofs[k]] == p[n - 1 - k] {
        if k == 0 {
          HeadNotInTail(dofs);
        } else {
          assert rest[k - 1] == dofs[k];
        }
      }
    }
  }

  /** Recycling: coarsening k live dofs and then refining k new ones hands the
      freed indices out again, the last freed first, and returns the index
      manager exactly to its state before the coarsening. */
  lemma CoarsenThenRefine(st: StackState, vals: seq<int>, gone: seq<nat>, born: seq<nat>, poison: bool)
    requires DofsIn(gone, |vals|) && NoDup(gone)
    requires DofsIn(born, |vals|) && NoDup(born) && |born| == |gone|
    ensures var c := CoarsenAll(st, vals, gone, poison);
      RefineAll(c.0, c.1, born).0 == st
      && forall k :: 0 <= k < |born| ==> RefineAll(c.0, c.1, born).1[born[k]] == vals[gone[|gone| - 1 - k]]
  {
    var c := CoarsenAll(st, vals, gone, poison);
    CoarsenFrame(st, vals, gone, poison);
    CoarsenPushes(st, vals, gone, poison);
    PopPushed(st.free, st.maxIndex, Held(vals, gone), c.1, born);
    assert st.free + [] == st.free;
  }

  /** The number of indices below the high-water mark is the number of live
      dofs plus the number of waiting indices: `size` counts live entities
      only when no index is waiting for reuse. */
  lemma LiveCount(st: StackState, vals: seq<int>, live: set<nat>)
    requires Books(st, vals, live)
    ensures |live| + |st.free| == st.maxIndex
  {
    ImageCard(vals, live);
    ElemsCard(st.free);
    RangeCard(st.maxIndex);
    var a := LiveValues(vals, live);
    var b := Elems(st.free);
    forall y | y in a ensures y !in b {
      var d :| d in live && d < |vals| && vals[d] == y;
      forall k | 0 <= k < |st.free| ensures st.free[k] != y { }
    }
    assert a * b == {};
    assert |a + b| == |a| + |b|;
  }

  lemma {:induction false} ImageCard(vals: seq<int>, live: set<nat>)
    requires forall d :: d in live ==> d < |vals|
    requires forall d1, d2 :: d1 in live && d2 in live && d1 != d2 ==> vals[d1] != vals[d2]
    ensures |LiveValues(vals, live)| == |live|
    decreases live
  {
    if live != {} {
      var d :| d in live;
      var rest := live - {d};
      ImageCard(vals, rest);
      assert LiveValues(vals, live) == LiveValues(vals, rest) + {vals[d]};
      assert vals[d] !in LiveValues(vals, rest);
    } else {
      assert LiveValues(vals, live) == {};
    }
  }

  lemma {:induction false} ElemsCard(s: seq<int>)
    requires NoDup(s)
    ensures |Elems(s)| == |s|
    decreases |s|
  {
    if s != [] {
      var n := |s|;
      var init := s[..n - 1];
      ElemsCard(init);
      assert Elems(s) == Elems(init) + {s[n - 1]} by {
        forall y | y in Elems(s) ensures y in Elems(init) + {s[n - 1]} {
          var k :| 0 <= k < n && s[k] == y;
          if k < n - 1 { assert init[k] == y; }
        }
        forall y | y in Elems(init) ensures y in Elems(s) {
          var k :| 0 <= k < n - 1 && init[k] == y;
          assert s[k] == y;
        }
      }
      forall k | 0 <= k < n - 1 ensures init[k] != s[n - 1] {
        assert init[k] == s[k];
      }
      assert s[n - 1] !in Elems(init);
    } else {
      assert Elems(s) == {};
    }
  }

  lemma {:induction false} RangeCard(n: int)
    requires 0 <= n
    ensures |Range(n)| == n
    decreases n
  {
    if n > 0 { RangeCard(n - 1); }
  }
}
