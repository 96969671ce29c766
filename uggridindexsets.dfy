/** The index and id sets of UGGrid.  The level index set renumbers the
    entities of its level: `update` walks the level's elements and then its
    vertices in level-iterator order and writes 0, 1, 2, ... into UG's
    level-index slot of each, the vertices starting again from 0.  The leaf
    index set and the two id sets read numbers UG keeps itself; their
    sub-entity queries throw `NotImplemented`.

    UG's entity storage is the class `UGEntity`; the grid's entity lists, in
    iterator order, are given sequences of it. */
module UGGridIndexSets {
  import opened Common

  /** One UG entity as the index sets see it. */
  class UGEntity {
    const codim: nat
    const geomType: GeometryType
    /** The entity's `globalId()` and `localId()`. */
    const globalId: nat
    const localId: nat
    /** The entity's own `subIndex<cc>(i)`; UG's entity code is not part of this model. */
    const subIndexOf: (int, int) -> int
    /** UG's level-index slot (`UG_NS<dim>::levelIndex(target_)`). */
    var levelIndex: int
    /** UG's leaf index, which the leaf index set only reads. */
    var leafIndex: int

    constructor (c: nat, t: GeometryType, gid: nat, lid: nat, sub: (int, int) -> int, lvl: int, leaf: int)
      ensures codim == c && geomType == t && globalId == gid && localId == lid && subIndexOf == sub
      ensures levelIndex == lvl && leafIndex == leaf
    {
      codim := c;
      geomType := t;
      globalId := gid;
      localId := lid;
      subIndexOf := sub;
      levelIndex := lvl;
      leafIndex := leaf;
    }
  }

  /** How many of the entities have geometry type `t`. */
  function CountOfType(es: seq<UGEntity>, t: GeometryType): (n: nat)
    ensures n <= |es|
    ensures (forall k :: 0 <= k < |es| ==> es[k].geomType == t) ==> n == |es|
    ensures (forall k :: 0 <= k < |es| ==> es[k].geomType != t) ==> n == 0
  {
    if es == [] then 0
    else (if es[0].geomType == t then 1 else 0) + CountOfType(es[1..], t)
  }

  /** The grid: its dimension and its entity lists in iterator order. */
  class UGGrid {
    const dimension: nat
    /** `levelEntities[l][c]`: the entities of codimension c on level l. */
    const levelEntities: seq<seq<seq<UGEntity>>>
    /** `leafEntities[c]`: the leaf entities of codimension c. */
    const leafEntities: seq<seq<UGEntity>>

    constructor (dim: nat, levels: seq<seq<seq<UGEntity>>>, leaf: seq<seq<UGEntity>>)
      ensures dimension == dim && levelEntities == levels && leafEntities == leaf
    {
      dimension := dim;
      levelEntities := levels;
      leafEntities := leaf;
    }

    /** Every level lists each codimension, each list holds distinct entities of that codimension. */
    ghost predicate Valid()
    {
      && dimension >= 1
      && |leafEntities| == dimension + 1
      && (forall l :: 0 <= l < |levelEntities| ==> |levelEntities[l]| == dimension + 1)
      && (forall l, c :: 0 <= l < |levelEntities| && 0 <= c < |levelEntities[l]| ==> NoDup(levelEntities[l][c]))
      && (forall l, c, k :: 0 <= l < |levelEntities| && 0 <= c < |levelEntities[l]| && 0 <= k < |levelEntities[l][c]| ==>
            levelEntities[l][c][k].codim == c)
    }

    /** `size(level, codim, type)`: the number of the level's entities of that codimension and type. */
    function LevelSize(level: int, codim: int, t: GeometryType): (r: int)
      requires 0 <= level < |levelEntities| && 0 <= codim < |levelEntities[level]|
      ensures 0 <= r <= |levelEntities[level][codim]|
    {
      CountOfType(levelEntities[level][codim], t)
    }

    /** `size(codim, type)`: the number of leaf entities of that codimension and type. */
    function LeafSize(codim: int, t: GeometryType): (r: int)
      requires 0 <= codim < |leafEntities|
      ensures 0 <= r <= |leafEntities[codim]|
    {
      CountOfType(leafEntities[codim], t)
    }
  }

  /** The index set of one level. */
  class UGGridLevelIndexSet {
    var grid: UGGrid?
    var level: int
    /** Never filled by any member: `geomtypes` delivers an empty list. */
    const myTypes: seq<GeometryType> := []

    /** The default constructor, which leaves grid and level to `update`. */
    constructor ()
      ensures grid == null
    {
      grid := null;
      level := 0;
    }

    /** `index(e)`: the level index stored with the entity, the slot `update` writes. */
    function Index(e: UGEntity): (r: int)
      reads e
      ensures r == e.levelIndex
    {
      e.levelIndex
    }

    /** `subindex<cc>(e, i)`: the element's own sub-index, whatever set asks. */
    function SubIndex(e: UGEntity, cc: int, i: int): (r: int)
      ensures r == e.subIndexOf(cc, i)
    {
      e.subIndexOf(cc, i)
    }

    /** `size(codim, type)`: the level's count from the grid. */
    function Size(codim: int, t: GeometryType): (r: int)
      reads this
      requires grid != null && grid.Valid() && 0 <= level < |grid.levelEntities| && 0 <= codim <= grid.dimension
      ensures r == grid.LevelSize(level, codim, t)
      ensures 0 <= r <= |grid.levelEntities[level][codim]|
    {
      grid.LevelSize(level, codim, t)
    }

    /** `geomtypes()`: always the empty list. */
    function GeomTypes(): (r: seq<GeometryType>)
      ensures r == []
    {
      myTypes
    }

    /** `update(grid, level)`: record grid and level, then number the level's
        elements 0, 1, ... in iterator order and its vertices 0, 1, ... in
        iterator order.  Only the level-index slots of those entities change. */
    method Update(g: UGGrid, l: int)
      requires g.Valid() && 0 <= l < |g.levelEntities|
      modifies this, g.levelEntities[l][0]`levelIndex, g.levelEntities[l][g.dimension]`levelIndex
      ensures grid == g && level == l
      ensures forall k :: 0 <= k < |g.levelEntities[l][0]| ==> Index(g.levelEntities[l][0][k]) == k
      ensures forall k :: 0 <= k < |g.levelEntities[l][g.dimension]| ==> Index(g.levelEntities[l][g.dimension][k]) == k
    {
      grid := g;
      level := l;
      var elements := g.levelEntities[l][0];
      var vertices := g.levelEntities[l][g.dimension];
      var id := 0;
      var it := 0;
      while it < |elements|
        invariant 0 <= it <= |elements| && id == it
        invariant grid == g && level == l
        invariant forall k :: 0 <= k < it ==> elements[k].levelIndex == k
      {
        elements[it].levelIndex := id;
        id := id + 1;
        it := it + 1;
      }
      id := 0;
      it := 0;
      while it < |vertices|
        invariant 0 <= it <= |vertices| && id == it
        invariant grid == g && level == l
        invariant forall k :: 0 <= k < |elements| ==> elements[k].levelIndex == k
        invariant forall k :: 0 <= k < it ==> vertices[k].levelIndex == k
      {
        forall k | 0 <= k < |elements| ensures elements[k] != vertices[it] {
          assert elements[k].codim == 0 && vertices[it].codim == g.dimension;
        }
        vertices[it].levelIndex := id;
        id := id + 1;
        it := it + 1;
      }
    }

    /** After `update`, the level indices of the level's entities of codimension
        0 (or of the vertex codimension) are exactly 0 .. n-1 without repetition;
        when they all have the type `t`, n is `size(codim, t)`. */
    lemma IndicesDense(codim: int, t: GeometryType)
      requires grid != null && grid.Valid() && 0 <= level < |grid.levelEntities| && 0 <= codim <= grid.dimension
      requires forall k :: 0 <= k < |grid.levelEntities[level][codim]| ==> Index(grid.levelEntities[level][codim][k]) == k
      ensures (set k | 0 <= k < |grid.levelEntities[level][codim]| :: Index(grid.levelEntities[level][codim][k]))
        == Range(|grid.levelEntities[level][codim]|)
      ensures forall i, j :: 0 <= i < j < |grid.levelEntities[level][codim]| ==>
        Index(grid.levelEntities[level][codim][i]) != Index(grid.levelEntities[level][codim][j])
      ensures (forall k :: 0 <= k < |grid.levelEntities[level][codim]| ==> grid.levelEntities[level][codim][k].geomType == t) ==>
        Range(|grid.levelEntities[level][codim]|) == Range(Size(codim, t))
    {
      var es := grid.levelEntities[level][codim];
      var s := set k | 0 <= k < |es| :: Index(es[k]);
      forall v | v in Range(|es|) ensures v in s {
        assert Index(es[v]) == v;
      }
    }
  }

  /** The leaf index set. */
  class UGGridLeafIndexSet {
    const grid: UGGrid
    /** Never filled by any member (`update` is empty): `geomtypes` delivers an empty list. */
    const mytypes: seq<GeometryType> := []

    constructor (g: UGGrid)
      ensures grid == g
    {
      grid := g;
    }

    /** `index(e)`: UG's leaf index of the entity, read and never written. */
    function Index(e: UGEntity): (r: int)
      reads e
      ensures r == e.leafIndex
    {
      e.leafIndex
    }

    /** `subindex<cc>(e, i)` always throws. */
    function SubIndex(e: UGEntity, cc: int, i: int): (r: Result<int>)
      ensures r == Failure(NotImplemented("UGGridLeafIndexSet::subindex()"))
    {
      Failure(NotImplemented("UGGridLeafIndexSet::subindex()"))
    }

    /** `size(codim, type)`: the grid's leaf count. */
    function Size(codim: int, t: GeometryType): (r: int)
      requires grid.Valid() && 0 <= codim <= grid.dimension
      ensures r == grid.LeafSize(codim, t)
      ensures 0 <= r <= |grid.leafEntities[codim]|
    {
      grid.LeafSize(codim, t)
    }

    /** `geomtypes()`: always the empty list. */
    function GeomTypes(): (r: seq<GeometryType>)
      ensures r == []
    {
      mytypes
    }

    /** `update()` does nothing. */
    method Update()
      ensures unchanged(this)
    {
    }
  }

  /** The global id set: ids are UG's global ids. */
  class UGGridGlobalIdSet {
    const grid: UGGrid

    constructor (g: UGGrid)
      ensures grid == g
    {
      grid := g;
    }

    /** `id(e)`: UG's global id of the entity. */
    function Id(e: UGEntity): (r: nat)
      ensures r == e.globalId
    {
      e.globalId
    }

    /** `subid<cc>(e, i)` always throws. */
    function SubId(e: UGEntity, cc: int, i: int): (r: Result<nat>)
      ensures r == Failure(NotImplemented("UGGridGlobalIdSet::subid"))
    {
      Failure(NotImplemented("UGGridGlobalIdSet::subid"))
    }

    /** `update()` does nothing. */
    method Update()
      ensures unchanged(this)
    {
    }
  }

  /** The local id set: ids are UG's local ids. */
  class UGGridLocalIdSet {
    const grid: UGGrid

    constructor (g: UGGrid)
      ensures grid == g
    {
      grid := g;
    }

    /** `id(e)`: UG's local id of the entity. */
    function Id(e: UGEntity): (r: nat)
      ensures r == e.localId
    {
      e.localId
    }

    /** `subid<cc>(e, i)` always throws. */
    function SubId(e: UGEntity, cc: int, i: int): (r: Result<nat>)
      ensures r == Failure(NotImplemented("UGGridLocalIdSet::subid"))
    {
      Failure(NotImplemented("UGGridLocalIdSet::subid"))
    }

    /** `update()` does nothing. */
    method Update()
      ensures unchanged(this)
    {
    }
  }
}
