/** The level and leaf index sets of YaspGrid.  Both hand out the entity's
    compressed index; they differ only in which level they stand for: the
    level set for its own level, the leaf set for the grid's finest level
    (`maxLevel`).  The grid's own counts and index computations are given
    functions of the grid. */
module YaspGridIndexSets {
  import opened Common

  /** What the index sets ask of the grid: its dimension, its finest level
      and its counts `size(level, codim)` and `size(level, type)`. */
  datatype YaspGrid = YaspGrid(
    dimension: nat,
    maxLevel: int,
    sizeOfCodim: (int, int) -> int,
    sizeOfType: (int, GeometryType) -> int)

  /** What the index sets ask of an entity: its codimension and level, its
      `compressedIndex()` and, for an element, `subCompressedIndex(i, codim)`. */
  datatype YaspEntity = YaspEntity(
    codim: nat,
    level: int,
    compressedIndex: nat,
    subCompressedIndex: (int, nat) -> nat)

  /** The constructors' loop: for each codimension 0 .. dim, one cube type of
      dimension `dim - codim`. */
  method CubeTypes(dim: nat) returns (types: seq<seq<GeometryType>>)
    ensures |types| == dim + 1
    ensures forall c :: 0 <= c <= dim ==> types[c] == [GeometryType(Cube, dim - c)]
  {
    types := [];
    var codim := 0;
    while codim <= dim
      invariant 0 <= codim <= dim + 1
      invariant |types| == codim
      invariant forall c :: 0 <= c < codim ==> types[c] == [GeometryType(Cube, dim - c)]
    {
      types := types + [[GeometryType(Cube, dim - codim)]];
      codim := codim + 1;
    }
  }

  /** The single cube type per codimension, as both constructors set it up. */
  ghost predicate CubeTypesOf(types: seq<seq<GeometryType>>, dim: nat)
  {
    |types| == dim + 1 && forall c :: 0 <= c <= dim ==> types[c] == [GeometryType(Cube, dim - c)]
  }

  /** `index` and `subIndex` are asserted to be asked of elements and vertices only. */
  predicate Indexable(e: YaspEntity, dim: nat)
  {
    e.codim == 0 || e.codim == dim
  }

  /** `index(e)`, shared by both sets: the entity's compressed index. */
  function IndexOf(e: YaspEntity, dim: nat): (r: nat)
    requires Indexable(e, dim)
  {
    e.compressedIndex
  }

  /** `subIndex(e, i, codim)`, shared by both sets: a vertex answers with its
      own compressed index, an element with the compressed index of its
      sub-entity. */
  function SubIndexOf(e: YaspEntity, i: int, codim: nat, dim: nat): (r: nat)
    requires Indexable(e, dim)
    ensures e.codim == dim ==> r == IndexOf(e, dim)
    ensures e.codim != dim ==> r == e.subCompressedIndex(i, codim)
  {
    if e.codim == dim then e.compressedIndex else e.subCompressedIndex(i, codim)
  }

  /** On a vertex, `subIndex` does not depend on `i` or `codim`. */
  lemma VertexSubIndexIgnoresArguments(e: YaspEntity, dim: nat, i: int, j: int, c1: nat, c2: nat)
    requires e.codim == dim
    ensures SubIndexOf(e, i, c1, dim) == SubIndexOf(e, j, c2, dim) == IndexOf(e, dim)
  {
  }

  class YaspLevelIndexSet {
    const grid: YaspGrid
    const level: int
    const mytypes: seq<seq<GeometryType>>

    constructor (g: YaspGrid, l: int)
      ensures grid == g && level == l && CubeTypesOf(mytypes, g.dimension)
    {
      grid := g;
      level := l;
      var types := CubeTypes(g.dimension);
      mytypes := types;
    }

    function Index(e: YaspEntity): (r: nat)
      requires Indexable(e, grid.dimension)
      ensures r == e.compressedIndex
    {
      IndexOf(e, grid.dimension)
    }

    /** `subIndex(e, i, codim)`: a vertex's own compressed index, else the element's sub-entity's. */
    function SubIndex(e: YaspEntity, i: int, codim: nat): (r: nat)
      requires Indexable(e, grid.dimension)
      ensures e.codim == grid.dimension ==> r == e.compressedIndex
      ensures e.codim != grid.dimension ==> r == e.subCompressedIndex(i, codim)
    {
      SubIndexOf(e, i, codim, grid.dimension)
    }

    /** `size(type)`: the grid's count on this level. */
    function SizeOfType(t: GeometryType): (r: int)
      ensures r == grid.sizeOfType(level, t)
    {
      grid.sizeOfType(level, t)
    }

    /** `size(codim)`: the grid's count on this level. */
    function Size(codim: int): (r: int)
      ensures r == grid.sizeOfCodim(level, codim)
    {
      grid.sizeOfCodim(level, codim)
    }

    /** `contains(e)`: exactly the entities of this level. */
    function Contains(e: YaspEntity): (r: bool)
      ensures r <==> e.level == level
    {
      e.level == level
    }

    /** `geomTypes(codim)`: exactly one type, the cube of dimension `dimension - codim`. */
    function GeomTypes(codim: int): (r: seq<GeometryType>)
      requires CubeTypesOf(mytypes, grid.dimension) && 0 <= codim <= grid.dimension
      ensures |r| == 1 && r[0].IsCube() && r[0].dim == grid.dimension - codim
    {
      mytypes[codim]
    }
  }

  class YaspLeafIndexSet {
    const grid: YaspGrid
    const mytypes: seq<seq<GeometryType>>

    constructor (g: YaspGrid)
      ensures grid == g && CubeTypesOf(mytypes, g.dimension)
    {
      grid := g;
      var types := CubeTypes(g.dimension);
      mytypes := types;
    }

    function Index(e: YaspEntity): (r: nat)
      requires Indexable(e, grid.dimension)
      ensures r == e.compressedIndex
    {
      IndexOf(e, grid.dimension)
    }

    /** `subIndex(e, i, codim)`: a vertex's own compressed index, else the element's sub-entity's. */
    function SubIndex(e: YaspEntity, i: int, codim: nat): (r: nat)
      requires Indexable(e, grid.dimension)
      ensures e.codim == grid.dimension ==> r == e.compressedIndex
      ensures e.codim != grid.dimension ==> r == e.subCompressedIndex(i, codim)
    {
      SubIndexOf(e, i, codim, grid.dimension)
    }

    /** `size(type)`: the grid's count on the finest level. */
    function SizeOfType(t: GeometryType): (r: int)
      ensures r == grid.sizeOfType(grid.maxLevel, t)
    {
      grid.sizeOfType(grid.maxLevel, t)
    }

    /** `size(codim)`: the grid's count on the finest level. */
    function Size(codim: int): (r: int)
      ensures r == grid.sizeOfCodim(grid.maxLevel, codim)
    {
      grid.sizeOfCodim(grid.maxLevel, codim)
    }

    /** `contains(e)`: a level test, not a leaf test: exactly the entities of the finest level. */
    function Contains(e: YaspEntity): (r: bool)
      ensures r <==> e.level == grid.maxLevel
    {
      e.level == grid.maxLevel
    }

    /** `geomTypes(codim)`: exactly one type, the cube of dimension `dimension - codim`. */
    function GeomTypes(codim: int): (r: seq<GeometryType>)
      requires CubeTypesOf(mytypes, grid.dimension) && 0 <= codim <= grid.dimension
      ensures |r| == 1 && r[0].IsCube() && r[0].dim == grid.dimension - codim
    {
      mytypes[codim]
    }
  }

  /** The leaf index set is the level index set of the finest level: same
      membership, sizes, indices, sub-indices and geometry types. */
  lemma LeafIsFinestLevel(leaf: YaspLeafIndexSet, lvl: YaspLevelIndexSet)
    requires leaf.grid == lvl.grid && lvl.level == leaf.grid.maxLevel
    requires CubeTypesOf(leaf.mytypes, leaf.grid.dimension) && CubeTypesOf(lvl.mytypes, lvl.grid.dimension)
    ensures forall e :: leaf.Contains(e) == lvl.Contains(e)
    ensures forall c :: leaf.Size(c) == lvl.Size(c)
    ensures forall t :: leaf.SizeOfType(t) == lvl.SizeOfType(t)
    ensures forall e :: Indexable(e, leaf.grid.dimension) ==> leaf.Index(e) == lvl.Index(e)
    ensures forall e, i, c :: Indexable(e, leaf.grid.dimension) ==> leaf.SubIndex(e, i, c) == lvl.SubIndex(e, i, c)
    ensures forall c :: 0 <= c <= leaf.grid.dimension ==> leaf.GeomTypes(c) == lvl.GeomTypes(c)
  {
  }

  /** The leaf set's membership is a level test, not `isLeaf`: an entity of a
      coarser level is not in it, even when it is a leaf. */
  lemma LeafSetIgnoresCoarserLeaves(leaf: YaspLeafIndexSet, e: YaspEntity)
    requires e.level < leaf.grid.maxLevel
    ensures !leaf.Contains(e)
  {
  }
}
