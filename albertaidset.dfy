/** The ALBERTA id set (`AlbertaGridIdSet`): an entity's id is its
    hierarchic index with the codimension shifted into the two top bits of a
    32-bit unsigned integer.  The unsigned arithmetic (conversion of the index,
    the shift, the addition) is written out modulo 2^32. */
module AlbertaIdSets {
  import opened Common
  import opened AlbertaIndexSets

  /** `codimShift`. */
  const CodimShift: nat := 30
  /** `maxCodimSize == 1 << codimShift`: the bound `size(codim)` must stay below. */
  const MaxCodimSize: nat := 0x4000_0000
  /** The number of values of the id type, `unsigned int`. */
  const IdRange: nat := 0x1_0000_0000

  /** Conversion of an `int` to the id type: wrap-around modulo 2^32. */
  function ToId(x: int): (r: nat)
    ensures r < IdRange
    ensures 0 <= x < IdRange ==> r == x
    ensures x < 0 && 0 <= x + IdRange ==> r == x + IdRange
  {
    x % IdRange
  }

  /** `((IdType)codim << codimShift) + index`, with `index` already converted to the id type. */
  function MakeId(codim: int, index: int): (r: nat)
    ensures r < IdRange
    ensures r == (codim * MaxCodimSize + index) % IdRange
  {
    WrapShiftAdd(codim, index);
    (ToId(codim) * MaxCodimSize % IdRange + ToId(index)) % IdRange
  }

  /** Adding a multiple of 2^32 does not change a value modulo 2^32. */
  lemma ModShift(x: int, k: int)
    ensures (x + k * IdRange) % IdRange == x % IdRange
  {
    var q := x / IdRange;
    assert x == q * IdRange + x % IdRange;
    assert x + k * IdRange == (q + k) * IdRange + x % IdRange;
  }

  /** Wrapping each operand before the shift and the sum gives the wrapped exact value. */
  lemma WrapShiftAdd(codim: int, index: int)
    ensures (ToId(codim) * MaxCodimSize % IdRange + ToId(index)) % IdRange == (codim * MaxCodimSize + index) % IdRange
  {
    var qc := codim / IdRange;
    var qi := index / IdRange;
    var s := ToId(codim) * MaxCodimSize;
    var qs := s / IdRange;
    assert codim == qc * IdRange + ToId(codim);
    assert index == qi * IdRange + ToId(index);
    assert s == qs * IdRange + s % IdRange;
    assert codim * MaxCodimSize == qc * MaxCodimSize * IdRange + s;
    calc {
      (codim * MaxCodimSize + index) % IdRange;
      (s % IdRange + ToId(index) + (qs + qc * MaxCodimSize + qi) * IdRange) % IdRange;
      { ModShift(s % IdRange + ToId(index), qs + qc * MaxCodimSize + qi); }
      (s % IdRange + ToId(index)) % IdRange;
    }
  }

  /** For a codimension of a grid of dimension at most 3 and an index below
      `maxCodimSize`, the id is `codim * 2^30 + index`: the top bits hold the
      codimension and the low 30 bits the index. */
  lemma MakeIdDecodes(codim: int, index: int)
    requires 0 <= codim <= 3 && 0 <= index < MaxCodimSize
    ensures MakeId(codim, index) == codim * MaxCodimSize + index
    ensures MakeId(codim, index) / MaxCodimSize == codim
    ensures MakeId(codim, index) % MaxCodimSize == index
  {
    assert codim * MaxCodimSize < IdRange by {
      assert codim * MaxCodimSize <= 3 * MaxCodimSize;
    }
    assert ToId(codim) * MaxCodimSize % IdRange == codim * MaxCodimSize;
    assert codim * MaxCodimSize + index < IdRange;
  }

  /** Within those bounds different (codimension, index) pairs get different ids. */
  lemma MakeIdInjective(c1: int, i1: int, c2: int, i2: int)
    requires 0 <= c1 <= 3 && 0 <= i1 < MaxCodimSize
    requires 0 <= c2 <= 3 && 0 <= i2 < MaxCodimSize
    requires c1 != c2 || i1 != i2
    ensures MakeId(c1, i1) != MakeId(c2, i2)
  {
    MakeIdDecodes(c1, i1);
    MakeIdDecodes(c2, i2);
  }

  /** Why `size(codim)` must stay below `maxCodimSize`: one index past the bound
      in codimension 0 gets the id of index 0 in codimension 1. */
  lemma IndexPastBoundCollides()
    ensures MakeId(0, MaxCodimSize) == MakeId(1, 0)
  {
  }

  class IdSet {
    const hset: HierarchicIndexSet

    constructor (h: HierarchicIndexSet)
      ensures hset == h
    {
      hset := h;
    }

    /** The entity is one of the mesh's current entities: a live dof for a
        numbered codimension, one of the mesh's `nVertices` vertex dofs for the
        vertex codimension. */
    ghost predicate Current(e: Entity, nVertices: nat)
      reads this, hset, hset.entityNumbers
    {
      && hset.LiveEntity(e)
      && (e.codim == hset.dimension ==> hset.DofOf(e.codim, e.element, e.localNumber) < nVertices)
    }

    /** `id(e)`, under the assertion `size(codim) < maxCodimSize`. */
    function Id(e: Entity, nVertices: nat): (r: nat)
      reads this, hset, hset.indexStack, hset.entityNumbers
      requires hset.Valid() && hset.Addressable(e.codim, e.element, e.localNumber)
      requires hset.Size(e.codim, nVertices) < MaxCodimSize
      ensures r < IdRange
    {
      MakeId(e.codim, hset.Index(e))
    }

    /** A current entity's codimension and index can be read back from its id. */
    lemma IdDecodes(e: Entity, nVertices: nat)
      requires hset.Valid() && Current(e, nVertices)
      requires hset.Size(e.codim, nVertices) < MaxCodimSize
      ensures Id(e, nVertices) == e.codim * MaxCodimSize + hset.Index(e)
      ensures Id(e, nVertices) / MaxCodimSize == e.codim
      ensures Id(e, nVertices) % MaxCodimSize == hset.Index(e)
    {
      IndexBelowMax(e, nVertices);
      MakeIdDecodes(e.codim, hset.Index(e));
    }

    lemma IndexBelowMax(e: Entity, nVertices: nat)
      requires hset.Valid() && Current(e, nVertices)
      requires hset.Size(e.codim, nVertices) < MaxCodimSize
      ensures 0 <= hset.Index(e) < MaxCodimSize && e.codim <= 3
    {
    }

    /** `subId< codim >(e, i)` on an element entity, under the same assertion. */
    function SubId(e: Entity, i: nat, codim: nat, nVertices: nat): (r: nat)
      reads this, hset, hset.indexStack, hset.entityNumbers
      requires hset.Valid() && e.codim == 0 && hset.Addressable(codim, e.element, i)
      requires hset.Size(codim, nVertices) < MaxCodimSize
      ensures r < IdRange
    {
      MakeId(codim, hset.SubIndexOf(e, i, codim))
    }

    /** The sub-id of a sub-entity is the id of that entity, however it is reached. */
    lemma SubIdIsId(parent: Entity, i: nat, sub: Entity, nVertices: nat)
      requires hset.Valid() && parent.codim == 0
      requires hset.Addressable(sub.codim, parent.element, i)
      requires hset.Addressable(sub.codim, sub.element, sub.localNumber)
      requires hset.DofOf(sub.codim, sub.element, sub.localNumber) == hset.DofOf(sub.codim, parent.element, i)
      requires hset.Size(sub.codim, nVertices) < MaxCodimSize
      ensures SubId(parent, i, sub.codim, nVertices) == Id(sub, nVertices)
    {
      hset.IndexAgreesWithSubIndex(parent, i, sub);
    }

    /** Ids are unique: two current entities that differ in codimension or in
        dof have different ids. */
    lemma IdsDistinct(e1: Entity, e2: Entity, nVertices: nat)
      requires hset.Valid() && Current(e1, nVertices) && Current(e2, nVertices)
      requires hset.Size(e1.codim, nVertices) < MaxCodimSize && hset.Size(e2.codim, nVertices) < MaxCodimSize
      requires e1.codim != e2.codim ||
        hset.DofOf(e1.codim, e1.element, e1.localNumber) != hset.DofOf(e2.codim, e2.element, e2.localNumber)
      ensures Id(e1, nVertices) != Id(e2, nVertices)
    {
      IndexBelowMax(e1, nVertices);
      IndexBelowMax(e2, nVertices);
      if e1.codim == e2.codim {
        hset.LiveIndicesUnique(e1, e2, nVertices);
      }
      MakeIdInjective(e1.codim, hset.Index(e1), e2.codim, hset.Index(e2));
    }
  }
}
