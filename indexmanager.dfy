/** The index manager that hands out and takes back integer indices for one
    codimension of an ALBERTA mesh (the `IndexManagerType` behind each
    `indexStack_[ codim ]`).  Its own source is not part of this model; it is
    modelled from how the index sets use it: `getIndex`, `freeIndex`,
    `setMaxIndex` and `size`.  Freed indices are reused last-in, first-out;
    when none is waiting, the next index above every index handed out so far is
    drawn, and `size` is that high-water mark. */
module IndexManagers {
  import opened Common

  /** The abstract state of one manager: the stack of freed indices (its top is
      the last element) and the high-water mark `maxIndex`. */
  datatype StackState = StackState(free: seq<int>, maxIndex: int)

  /** A freshly constructed manager: nothing handed out, nothing freed. */
  const Initial: StackState := StackState([], 0)

  /** `getIndex`: the index it returns and the state after it.  A waiting
      index is popped off the top of the stack; with none waiting, the
      high-water mark is handed out and raised by one. */
  function Get(st: StackState): (r: (int, StackState))
    ensures st.free != [] ==> r.0 == st.free[|st.free| - 1] && |r.1.free| == |st.free| - 1 && r.1.maxIndex == st.maxIndex
    ensures st.free == [] ==> r.0 == st.maxIndex && r.1 == StackState([], st.maxIndex + 1)
  {
    if st.free != [] then
      (st.free[|st.free| - 1], StackState(st.free[..|st.free| - 1], st.maxIndex))
    else
      (st.maxIndex, StackState([], st.maxIndex + 1))
  }

  /** `freeIndex(i)`: push `i` onto the stack of reusable indices. */
  function Free(st: StackState, i: int): (r: StackState)
    ensures |r.free| == |st.free| + 1 && r.free[|st.free|] == i && r.maxIndex == st.maxIndex
  {
    StackState(st.free + [i], st.maxIndex)
  }

  /** `setMaxIndex(m)`: move the high-water mark (used after reading a numbering back). */
  function SetMax(st: StackState, m: int): (r: StackState)
    ensures r.free == st.free && r.maxIndex == m
  {
    StackState(st.free, m)
  }

  /** The manager's own invariant: every waiting index was handed out before and
      waits only once. */
  ghost predicate StackValid(st: StackState)
  {
    && 0 <= st.maxIndex
    && NoDup(st.free)
    && forall k :: 0 <= k < |st.free| ==> 0 <= st.free[k] < st.maxIndex
  }

  /** Index `i` is currently handed out: below the high-water mark and not waiting on the stack. */
  ghost predicate InUse(st: StackState, i: int)
  {
    0 <= i < st.maxIndex && i !in st.free
  }

  /** Every state the manager can reach keeps its invariant, and `getIndex`
      returns an index that was not in use. */
  lemma GetKeepsValid(st: StackState)
    requires StackValid(st)
    ensures StackValid(Get(st).1)
    ensures !InUse(st, Get(st).0) && InUse(Get(st).1, Get(st).0)
    ensures Get(st).1.maxIndex >= st.maxIndex
  {
    if st.free != [] {
      var n := |st.free|;
      forall k | 0 <= k < n - 1 ensures st.free[k] != st.free[n - 1] { }
    }
  }

  /** Freeing an index that is in use keeps the invariant and makes it no longer in use. */
  lemma FreeKeepsValid(st: StackState, i: int)
    requires StackValid(st) && InUse(st, i)
    ensures StackValid(Free(st, i)) && !InUse(Free(st, i), i)
  {
    var f := Free(st, i).free;
    forall a, b | 0 <= a < b < |f| ensures f[a] != f[b] {
      if b == |st.free| { assert f[a] == st.free[a] && st.free[a] in st.free; }
    }
  }

  /** Last-in, first-out reuse: `getIndex` right after `freeIndex(i)` returns `i`
      and restores the state before the free. */
  lemma FreeThenGet(st: StackState, i: int)
    ensures Get(Free(st, i)) == (i, st)
  {
    assert (st.free + [i])[..|st.free|] == st.free;
  }

  /** One index manager object, as the index set owns one per numbered codimension. */
  class IndexManager {
    var free: seq<int>
    var maxIndex: int

    /** The abstract value of this manager. */
    function State(): StackState
      reads this
    {
      StackState(free, maxIndex)
    }

    constructor ()
      ensures State() == Initial
    {
      free := [];
      maxIndex := 0;
    }

    /** Hand out an index: the most recently freed one, else a new one. */
    method GetIndex() returns (i: int)
      modifies this
      ensures (i, State()) == Get(old(State()))
    {
      if |free| > 0 {
        i := free[|free| - 1];
        free := free[..|free| - 1];
      } else {
        i := maxIndex;
        maxIndex := maxIndex + 1;
      }
    }

    /** Take an index back for reuse; giving back an index that is not in use is a programming error. */
    method FreeIndex(i: int)
      requires InUse(State(), i)
      modifies this
      ensures State() == Free(old(State()), i)
    {
      free := free + [i];
    }

    /** Set the high-water mark, keeping the waiting indices. */
    method SetMaxIndex(m: int)
      modifies this
      ensures State() == SetMax(old(State()), m)
    {
      maxIndex := m;
    }

    /** `size()`: the high-water mark, so every index ever handed out lies below it. */
    function Size(): (n: int)
      reads this
      requires StackValid(State())
      ensures n >= 0 && forall k :: 0 <= k < |free| ==> free[k] < n
    {
      maxIndex
    }
  }
}
