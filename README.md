# Entity index and id bookkeeping of dune-grid, in Dafny

This project models how dune-grid numbers the entities of a hierarchical
mesh and gives them ids, and proves properties of that model. It covers:

- **ALBERTA hierarchic index set** (`AlbertaIndexSets`, built on
  `IndexManagers` and `AlbertaNumbering`).
  - Each codimension below the vertex codimension has an index manager and a
    dof vector of entity numbers.
  - `create` numbers every used dof by one `getIndex`.
  - The refine hook draws a fresh index for every internal sub-child dof.
  - The coarsen hook gives those indices back and, in a debug build, poisons
    the slots with -1.
  - `index`, `subIndex`, `size`, `contains` and `geomTypes` read this state.
  - The central invariant `Books` says: the live slots hold pairwise distinct
    indices, none of them waits on the free stack, no index waits twice, and
    live and waiting indices together are exactly `0 .. size-1`.
- **ALBERTA id set** (`AlbertaIdSets`): `(codim << 30) + index` in 32-bit
  unsigned arithmetic. Ids are unique when every `size(codim)` stays below 2^30.
- **ALBERTA helper routines** (`AlbertaExtra`):
  - `calcMaxIndex` and `clearDofVec`;
  - the level running maximum `calcmxl`/`calcMaxLevel`;
  - `storeLevelOfElement`/`restoreElNewCheck`;
  - the `MeshCallBack` registry and the call-back loops of the refine and
    coarsen call-backs.
- **UG index and id sets** (`UGGridIndexSets`):
  - the level index set's `update`, which renumbers elements and vertices
    0, 1, 2, ... in level-iterator order;
  - the leaf index set and the two id sets, whose sub-entity queries throw
    `NotImplemented` and whose `update` does nothing.
- **YaspGrid level and leaf index sets** (`YaspGridIndexSets`).
- **Non-geometric half of the grid test `checkGeometryInFather`**
  (`CheckGeometryInFather`):
  - the father-chain walk, with its found-child and distinct-id checks;
  - the level-equals-depth count;
  - the leaf-has-no-children check.
  - The test's loops are proved equal to a reference function `Check`.
  - `Check` passes exactly on the hierarchies that satisfy the declarative
    predicate `Consistent`.
- **DGF interval text builder of the Python bindings** (`Dgf`):
  `CartesianDomain`, `cartesianDomain` and `string2dgf`.

The index manager's own code (`agelementindex.cc`) is not part of this model.
It is modelled from how the index sets use it:

- a freed index goes on a stack and is reused last-in, first-out;
- with no index waiting, the next index is the high-water mark, which then
  grows by one;
- `size()` is the high-water mark.

Where the design description and the code disagree, the model follows the code:

- `size(codim)` of the ALBERTA set is the index manager's high-water mark,
  not the number of live entities.
  - `SizeAccounts` proves that it is the live count plus the number of
    indices waiting for reuse.
  - So the indices are dense only when nothing is waiting.
- `read` never checks the structure it reads. It always ends by throwing an
  `AlbertaIOError`.
- UG's level index set does not keep a private array. `update` writes the
  numbers into UG's per-entity level-index slots.

## Model

| member | source | states |
|---|---|---|
| IndexManagers.Get | grid/albertagrid/indexsets.hh:326-329 | `getIndex` pops the most recently freed index when one is waiting. Otherwise it hands out the high-water mark and raises the mark by one. |
| IndexManagers.Free | grid/albertagrid/indexsets.hh:405-409 | `freeIndex(i)` puts `i` on top of the free stack. The rest of the stack and the high-water mark are kept. |
| IndexManagers.SetMax | grid/albertagrid/indexsets.hh:209-210 | `setMaxIndex(m)` sets the high-water mark to `m` and keeps the free stack. |
| IndexManagers.GetKeepsValid | grid/albertagrid/indexsets.hh:326-329 | `getIndex` keeps the manager's invariant. It returns an index that was not in use and is in use afterwards. The high-water mark never drops. |
| IndexManagers.FreeKeepsValid | grid/albertagrid/indexsets.hh:405-413 | `freeIndex` of an index in use keeps the invariant, and the index is no longer in use. |
| IndexManagers.FreeThenGet | grid/albertagrid/indexsets.hh:360-365 | Reuse is last-in, first-out: `getIndex` right after `freeIndex(i)` returns `i` and restores the manager's earlier state. |
| IndexManagers.IndexManager.constructor | grid/albertagrid/indexsets.hh:261 | A new manager has nothing waiting and high-water mark 0. |
| IndexManagers.IndexManager.GetIndex | grid/albertagrid/indexsets.hh:326-329 | The returned index and the new state are those of `Get` on the old state: the top of the free stack, else the high-water mark, which grows by one. |
| IndexManagers.IndexManager.FreeIndex | grid/albertagrid/indexsets.hh:405-413 | Callers may only free an index that is in use. The index is pushed onto the free stack. |
| IndexManagers.IndexManager.SetMaxIndex | grid/albertagrid/indexsets.hh:209-210 | Only the high-water mark changes. |
| IndexManagers.IndexManager.Size | grid/albertagrid/indexsets.hh:136-143 | `size()` is non-negative, and every waiting index lies below it. |
| AlbertaNumbering.RefineAll | grid/albertagrid/indexsets.hh:360-374 | The refine hook as a fold over the patch's internal sub-child dofs. The dof vector keeps its length. |
| AlbertaNumbering.CoarsenAll | grid/albertagrid/indexsets.hh:405-422 | The coarsen hook as a fold over the sub-child dofs: `freeIndex(array[dof])`, then -1 in the slot when poisoning. The dof vector keeps its length. Its promises are proved in `CoarsenFrame`, `CoarsenPushes` and `CoarsenPreserves`. |
| AlbertaNumbering.BooksInitial | grid/albertagrid/indexsets.hh:249-250 | A fresh manager with no live dof satisfies `Books`. |
| AlbertaNumbering.BooksStackValid | grid/albertagrid/indexsets.hh:261-264 | `Books` includes the manager's own invariant. |
| AlbertaNumbering.LiveIsInUse | grid/albertagrid/indexsets.hh:405-409 | A live slot's index is in use. So `freeIndex(array[dof])` on a live dof is always allowed. |
| AlbertaNumbering.AllocPreserves | grid/albertagrid/indexsets.hh:360-365 | Numbering one new dof with `getIndex` keeps `Books`. The index drawn is held by no live slot. |
| AlbertaNumbering.ReleasePreserves | grid/albertagrid/indexsets.hh:405-413 | Freeing a live dof's index keeps `Books`, whatever is then written into the slot. |
| AlbertaNumbering.RefineFrame | grid/albertagrid/indexsets.hh:360-365 | The refine hook rewrites only the slots of its dofs. |
| AlbertaNumbering.RefinePreserves | grid/albertagrid/indexsets.hh:360-374 | The refine hook keeps `Books`, and its dofs become live. |
| AlbertaNumbering.RefineFresh | grid/albertagrid/indexsets.hh:360-374 | The new indices differ from each other and from every index a live slot held before. |
| AlbertaNumbering.NumberInOrder | grid/albertagrid/indexsets.hh:236-254 | Numbering from an empty manager with high-water mark m gives the k-th dof index m + k and leaves the mark at m + number of dofs. |
| AlbertaNumbering.CoarsenFrame | grid/albertagrid/indexsets.hh:405-413 | The coarsen hook touches only its dofs' slots. With poisoning they hold -1; without it the vector is unchanged. |
| AlbertaNumbering.CoarsenPushes | grid/albertagrid/indexsets.hh:405-422 | The coarsen hook pushes the indices of its dofs onto the free stack, in visiting order: the k-th pushed index is the value of the k-th dof's slot. The high-water mark stays as it is. |
| AlbertaNumbering.CoarsenPreserves | grid/albertagrid/indexsets.hh:405-422 | The coarsen hook keeps `Books`, and its dofs stop being live. |
| AlbertaNumbering.PopPushed | grid/albertagrid/indexsets.hh:360-365 | Refining right after pushes pops the pushed indices in reverse order and restores the stack. |
| AlbertaNumbering.CoarsenThenRefine | grid/albertagrid/indexsets.hh:360-422 | Coarsening k dofs and then refining k dofs hands the freed indices out again, the last freed first. The manager returns to its state before the coarsening. |
| AlbertaNumbering.LiveCount | grid/albertagrid/indexsets.hh:136-143 | Under `Books`, live dofs plus waiting indices equal the high-water mark. |
| AlbertaIndexSets.HierarchicIndexSet.constructor | grid/albertagrid/indexsets.hh:278-288 | One empty index manager per numbered codimension. Each codimension gets the single simplex type of dimension `dimension - codim`. |
| AlbertaIndexSets.HierarchicIndexSet.Contains | grid/albertagrid/indexsets.hh:99-104 | Every entity is contained. |
| AlbertaIndexSets.HierarchicIndexSet.GeomTypes | grid/albertagrid/indexsets.hh:145-150 | Exactly one type, a simplex of dimension `dimension - codim`. |
| AlbertaIndexSets.HierarchicIndexSet.Index | grid/albertagrid/indexsets.hh:107-116 | `index(e)` is the number stored at the dof of the entity on its own element with its own local number. For the vertex codimension it is that dof itself. |
| AlbertaIndexSets.HierarchicIndexSet.SubIndexOf | grid/albertagrid/indexsets.hh:119-127 | `subIndex<codim>(e, i)` on an element is the number stored at the dof of its i-th sub-entity. For the vertex codimension it is that dof itself. |
| AlbertaIndexSets.HierarchicIndexSet.SubIndex | grid/albertagrid/indexsets.hh:172-187 | For the vertex codimension, the dof itself; otherwise the number stored at the dof. In 3D the edge's local number is remapped with `dune2albertaEdge` first. |
| AlbertaIndexSets.HierarchicIndexSet.IndexAgreesWithSubIndex | grid/albertagrid/indexsets.hh:106-127 | `index` of a sub-entity equals `subIndex` of it on an element, whichever element and local number lead to the same dof. |
| AlbertaIndexSets.HierarchicIndexSet.Size | grid/albertagrid/indexsets.hh:135-143 | `size(codim)` is the vertex count for the vertex codimension and the manager's size otherwise. It is non-negative, and every live index lies below it. |
| AlbertaIndexSets.HierarchicIndexSet.LiveBelowSize | grid/albertagrid/indexsets.hh:136-143 | Every live entity of a numbered codimension has an index between 0 and its manager's high-water mark. |
| AlbertaIndexSets.HierarchicIndexSet.SizeOfType | grid/albertagrid/indexsets.hh:129-133 | `size(simplex type)` is `size(dimension - type.dim)`; every other type gives 0. |
| AlbertaIndexSets.HierarchicIndexSet.SizeByReportedType | grid/albertagrid/indexsets.hh:129-150 | The size asked for by the type `geomTypes(codim)` reports is `size(codim)`. |
| AlbertaIndexSets.HierarchicIndexSet.LiveIndicesUnique | grid/albertagrid/indexsets.hh:107-143 | Live entities of one codimension with different dofs have different indices. Each index lies below `size` and is not waiting for reuse. |
| AlbertaIndexSets.HierarchicIndexSet.SizeAccounts | grid/albertagrid/indexsets.hh:136-143 | `size(codim)` = live dofs + waiting indices. Every index below it is waiting or held by a live dof. |
| AlbertaIndexSets.HierarchicIndexSet.Create | grid/albertagrid/indexsets.hh:189-198 | Codimensions 0 and 1, and 2 in 3D, get fresh dof vectors. The k-th used dof holds k, so `Books` holds and the used dofs are live. Each manager ends at mark (number of dofs) with nothing waiting. |
| AlbertaIndexSets.HierarchicIndexSet.CreateEntityNumbers | grid/albertagrid/indexsets.hh:236-254 | Appends a new dof vector of the dof space's size, numbered by one `getIndex` per used dof in traversal order. The other codimensions are unchanged. |
| AlbertaIndexSets.NewNumbering | grid/albertagrid/indexsets.hh:246-250 | A fresh dof vector of the dof space's size, numbered from a fresh manager: the k-th dof gets k. The dofs are live, `Books` holds, and the manager ends at mark (number of dofs) with nothing waiting. |
| AlbertaIndexSets.HierarchicIndexSet.Read | grid/albertagrid/indexsets.hh:200-214 | Each numbered manager's mark becomes `calcMaxIndex` of its vector, with the free stack kept. The result is always `AlbertaIOError("We need to set dofAccess_ here, too")`. |
| AlbertaIndexSets.HierarchicIndexSet.RefineNumbering | grid/albertagrid/indexsets.hh:360-374 | The new state is `RefineAll` of the old. `Valid` is kept, the dofs become live, and the other codimensions are unchanged. |
| AlbertaIndexSets.HierarchicIndexSet.CoarsenNumbering | grid/albertagrid/indexsets.hh:405-422 | The new state is `CoarsenAll` of the old, poisoning when in a debug build. `Valid` is kept, the dofs stop being live, and the other codimensions are unchanged. |
| AlbertaIndexSets.NumberDofs | grid/albertagrid/indexsets.hh:326-329 | The loop `array[dof] = getIndex()` over the dofs ends in the state `RefineAll` describes. |
| AlbertaIndexSets.ReleaseDofs | grid/albertagrid/indexsets.hh:405-413 | The loop of `freeIndex(array[dof])`, then -1 when poisoning, ends in the state `CoarsenAll` describes. |
| AlbertaIdSets.ToId | grid/albertagrid/indexsets.hh:471 | Conversion to `unsigned int` wraps modulo 2^32: values in range are kept, and negative values are shifted by 2^32. |
| AlbertaIdSets.MakeId | grid/albertagrid/indexsets.hh:471-472 | The id is `(codim * 2^30 + index) mod 2^32`, the exact value wrapped as `unsigned int`. |
| AlbertaIdSets.MakeIdDecodes | grid/albertagrid/indexsets.hh:442-443 | For codim ≤ 3 and index < 2^30, the id is `codim * 2^30 + index`. Dividing by 2^30 gives the codimension back, and the remainder gives the index. |
| AlbertaIdSets.MakeIdInjective | grid/albertagrid/indexsets.hh:442-443 | Within those bounds, different (codim, index) pairs get different ids. |
| AlbertaIdSets.IndexPastBoundCollides | grid/albertagrid/indexsets.hh:470 | Without the bound, index 2^30 of codimension 0 has the id of index 0 of codimension 1. |
| AlbertaIdSets.IdSet.constructor | grid/albertagrid/indexsets.hh:450-452 | The id set refers to the grid's hierarchic index set. |
| AlbertaIdSets.IdSet.Id | grid/albertagrid/indexsets.hh:467-473 | `id(e)` under the asserted bound: a 32-bit value. |
| AlbertaIdSets.IdSet.IdDecodes | grid/albertagrid/indexsets.hh:467-473 | A current entity's id is `codim * 2^30 + index(e)`, so both can be read back. |
| AlbertaIdSets.IdSet.IndexBelowMax | grid/albertagrid/indexsets.hh:470-471 | Under the size assertion, a current entity's index lies below 2^30. |
| AlbertaIdSets.IdSet.SubId | grid/albertagrid/indexsets.hh:476-482 | `subId` under the asserted bound: a 32-bit value. |
| AlbertaIdSets.IdSet.SubIdIsId | grid/albertagrid/indexsets.hh:476-482 | The sub-id of a sub-entity equals the id of that entity. |
| AlbertaIdSets.IdSet.IdsDistinct | grid/albertagrid/indexsets.hh:459-482 | Two current entities that differ in codimension or dof have different ids. |
| AlbertaExtra.CalcMaxIndex | grid/albertagrid/albertaextra.hh:216-224 | The result is at least 1 and above every entry. It is 1 or one more than some entry. |
| AlbertaExtra.ClearDofVec | grid/albertagrid/albertaextra.hh:370-375 | Every used dof's entry becomes 0; nothing else changes. |
| AlbertaExtra.StoreLevels | grid/albertagrid/albertaextra.hh:388-413 | The vector after the pre-order traversal has stored every element's level. It keeps its length. |
| AlbertaExtra.StoreLevelsAt | grid/albertagrid/albertaextra.hh:388-413 | A slot no positive-level element owns keeps its value. An owned slot holds the level of the last positive-level element visited with that centre dof. |
| AlbertaExtra.AlbertHelpGlobals.constructor | grid/albertagrid/albertaextra.hh:59 | The running maximum starts at -1 and `elNewCheck` at null. |
| AlbertaExtra.AlbertHelpGlobals.Calcmxl | grid/albertagrid/albertaextra.hh:62-66 | The running maximum is raised to the level when the level is larger. |
| AlbertaExtra.AlbertHelpGlobals.CalcMaxLevel | grid/albertagrid/albertaextra.hh:69-79 | The result is one of the leaf levels and no smaller than any of them. The asserted "some element seen" is the requirement that there is a leaf. |
| AlbertaExtra.AlbertHelpGlobals.StoreLevelOfElement | grid/albertagrid/albertaextra.hh:388-404 | Level ≤ 0 leaves the vector unchanged. Otherwise only the centre slot changes, to the level. |
| AlbertaExtra.AlbertHelpGlobals.RestoreElNewCheck | grid/albertagrid/albertaextra.hh:407-415 | The vector must be non-null and ends as `StoreLevels` of the traversal. `elNewCheck` ends null. |
| AlbertaExtra.MeshCallBack.constructor | grid/albertagrid/albertaextra.hh:292-293 | All four pointers start null. |
| AlbertaExtra.MeshCallBack.Reset | grid/albertagrid/albertaextra.hh:259-265 | All four pointers become null. |
| AlbertaExtra.MeshCallBack.SetPointers | grid/albertagrid/albertaextra.hh:270-278 | The mesh and handler are recorded and both dispatchers installed. |
| AlbertaExtra.MeshCallBack.PostRefinement | grid/albertagrid/albertaextra.hh:280-284 | Under the source's own assertion that `preCoarsening_` is set, the call reaches the handler's `postRefinement` with the element. |
| AlbertaExtra.MeshCallBack.PreCoarsening | grid/albertagrid/albertaextra.hh:285-289 | The call reaches the handler's `preCoarsening` with the element. |
| AlbertaExtra.RefineCallBack | grid/albertagrid/albertaextra.hh:305-346 | With a handler, exactly `ref` calls of `postRefinement`, one per list element 0 .. ref-1, in order. Without one, no call. |
| AlbertaExtra.CoarseCallBack | grid/albertagrid/albertaextra.hh:349-365 | With a handler, exactly `ref` calls of `preCoarsening`, in list order. Without one, no call. |
| UGGridIndexSets.CountOfType | grid/uggrid/uggridindexsets.hh:40-43 | The count of entities of a type is at most the list length. It equals the length when all have the type and 0 when none has. |
| UGGridIndexSets.UGGrid.LevelSize | grid/uggrid/uggridindexsets.hh:40-43 | `size(level, codim, type)` lies between 0 and the number of the level's entities of that codimension. |
| UGGridIndexSets.UGGrid.LeafSize | grid/uggrid/uggridindexsets.hh:104-107 | `size(codim, type)` lies between 0 and the number of leaf entities of that codimension. |
| UGGridIndexSets.UGGridLevelIndexSet.constructor | grid/uggrid/uggridindexsets.hh:23 | No grid yet, and no geometry types. |
| UGGridIndexSets.UGGridLevelIndexSet.Index | grid/uggrid/uggridindexsets.hh:26-30 | `index(e)` is the level-index slot of the entity, the slot `update` numbers. |
| UGGridIndexSets.UGGridLevelIndexSet.SubIndex | grid/uggrid/uggridindexsets.hh:32-37 | `subindex<cc>(e, i)` is the element's own `subIndex<cc>(i)`. |
| UGGridIndexSets.UGGridLevelIndexSet.Size | grid/uggrid/uggridindexsets.hh:39-43 | The level set's size is the grid's count for its level and lies within the level's entity list. |
| UGGridIndexSets.UGGridLevelIndexSet.GeomTypes | grid/uggrid/uggridindexsets.hh:45-49 | `geomtypes()` is always the empty list; no member fills it. |
| UGGridIndexSets.UGGridLevelIndexSet.Update | grid/uggrid/uggridindexsets.hh:52-72 | Grid and level are recorded. The k-th element of the level has index k, and so has the k-th vertex. Only those level-index slots change. |
| UGGridIndexSets.UGGridLevelIndexSet.IndicesDense | grid/uggrid/uggridindexsets.hh:52-72 | After `update`, the indices of a codimension's entities are exactly 0 .. n-1 without repetition. When all entities have type t, n equals `size(codim, t)`. |
| UGGridIndexSets.UGGridLeafIndexSet.constructor | grid/uggrid/uggridindexsets.hh:84-86 | The set refers to the given grid. |
| UGGridIndexSets.UGGridLeafIndexSet.Index | grid/uggrid/uggridindexsets.hh:88-93 | `index(e)` is UG's leaf index of the entity. |
| UGGridIndexSets.UGGridLeafIndexSet.SubIndex | grid/uggrid/uggridindexsets.hh:96-101 | Always throws `NotImplemented("UGGridLeafIndexSet::subindex()")`. |
| UGGridIndexSets.UGGridLeafIndexSet.Size | grid/uggrid/uggridindexsets.hh:103-107 | The grid's leaf count, within the leaf entity list. |
| UGGridIndexSets.UGGridLeafIndexSet.GeomTypes | grid/uggrid/uggridindexsets.hh:109-113 | `geomtypes()` is always the empty list; the empty `update` never fills it. |
| UGGridIndexSets.UGGridLeafIndexSet.Update | grid/uggrid/uggridindexsets.hh:116-119 | Changes nothing. |
| UGGridIndexSets.UGGridGlobalIdSet.constructor | grid/uggrid/uggridindexsets.hh:135-136 | The id set refers to the given grid. |
| UGGridIndexSets.UGGridGlobalIdSet.Id | grid/uggrid/uggridindexsets.hh:138-143 | `id(e)` is UG's global id of the entity. |
| UGGridIndexSets.UGGridGlobalIdSet.SubId | grid/uggrid/uggridindexsets.hh:146-151 | Always throws `NotImplemented("UGGridGlobalIdSet::subid")`. |
| UGGridIndexSets.UGGridGlobalIdSet.Update | grid/uggrid/uggridindexsets.hh:154 | Changes nothing. |
| UGGridIndexSets.UGGridLocalIdSet.constructor | grid/uggrid/uggridindexsets.hh:169-170 | The id set refers to the given grid. |
| UGGridIndexSets.UGGridLocalIdSet.Id | grid/uggrid/uggridindexsets.hh:172-177 | `id(e)` is UG's local id of the entity. |
| UGGridIndexSets.UGGridLocalIdSet.SubId | grid/uggrid/uggridindexsets.hh:180-185 | Always throws `NotImplemented("UGGridLocalIdSet::subid")`. |
| UGGridIndexSets.UGGridLocalIdSet.Update | grid/uggrid/uggridindexsets.hh:188 | Changes nothing. |
| YaspGridIndexSets.CubeTypes | dune/grid/yaspgrid/yaspgridindexsets.hh:31-33 | For every codimension 0 .. dim, the list holds exactly the cube of dimension dim - codim. |
| YaspGridIndexSets.SubIndexOf | dune/grid/yaspgrid/yaspgridindexsets.hh:45-54 | On a vertex, the entity's compressed index; on an element, `subCompressedIndex(i, codim)`. |
| YaspGridIndexSets.VertexSubIndexIgnoresArguments | dune/grid/yaspgrid/yaspgridindexsets.hh:120-129 | On a vertex, `subIndex` does not depend on `i` or `codim` and equals `index`. |
| YaspGridIndexSets.YaspLevelIndexSet.constructor | dune/grid/yaspgrid/yaspgridindexsets.hh:27-34 | Records grid and level. Every codimension gets its single cube type. |
| YaspGridIndexSets.YaspLevelIndexSet.Index | dune/grid/yaspgrid/yaspgridindexsets.hh:37-42 | `index` of an element or vertex is its compressed index. |
| YaspGridIndexSets.YaspLevelIndexSet.SubIndex | dune/grid/yaspgrid/yaspgridindexsets.hh:45-54 | On a vertex, its own compressed index. On an element, the compressed index of its i-th sub-entity of the given codimension. |
| YaspGridIndexSets.YaspLevelIndexSet.Contains | dune/grid/yaspgrid/yaspgridindexsets.hh:69-73 | Contains e if and only if e lies on the set's level. |
| YaspGridIndexSets.YaspLevelIndexSet.Size | dune/grid/yaspgrid/yaspgridindexsets.hh:63-66 | The grid's codimension count on the set's level. |
| YaspGridIndexSets.YaspLevelIndexSet.SizeOfType | dune/grid/yaspgrid/yaspgridindexsets.hh:57-60 | The grid's type count on the set's level. |
| YaspGridIndexSets.YaspLevelIndexSet.GeomTypes | dune/grid/yaspgrid/yaspgridindexsets.hh:76-79 | Exactly one type, a cube of dimension `dimension - codim`. |
| YaspGridIndexSets.YaspLeafIndexSet.constructor | dune/grid/yaspgrid/yaspgridindexsets.hh:103-109 | Records the grid. Every codimension gets its single cube type. |
| YaspGridIndexSets.YaspLeafIndexSet.Index | dune/grid/yaspgrid/yaspgridindexsets.hh:112-117 | `index` of an element or vertex is its compressed index. |
| YaspGridIndexSets.YaspLeafIndexSet.SubIndex | dune/grid/yaspgrid/yaspgridindexsets.hh:120-129 | On a vertex, its own compressed index. On an element, the compressed index of its i-th sub-entity of the given codimension. |
| YaspGridIndexSets.YaspLeafIndexSet.Contains | dune/grid/yaspgrid/yaspgridindexsets.hh:144-149 | Contains e if and only if e lies on the finest level. |
| YaspGridIndexSets.YaspLeafIndexSet.Size | dune/grid/yaspgrid/yaspgridindexsets.hh:138-141 | The grid's codimension count on the finest level. |
| YaspGridIndexSets.YaspLeafIndexSet.SizeOfType | dune/grid/yaspgrid/yaspgridindexsets.hh:132-135 | The grid's type count on the finest level. |
| YaspGridIndexSets.YaspLeafIndexSet.GeomTypes | dune/grid/yaspgrid/yaspgridindexsets.hh:152-155 | Exactly one type, a cube of dimension `dimension - codim`. |
| YaspGridIndexSets.LeafIsFinestLevel | dune/grid/yaspgrid/yaspgridindexsets.hh:57-155 | The leaf set agrees with the level set of `maxLevel` in membership, both sizes, index, subIndex and geometry types. |
| YaspGridIndexSets.LeafSetIgnoresCoarserLeaves | dune/grid/yaspgrid/yaspgridindexsets.hh:144-149 | An entity on a coarser level is not in the leaf set, even if it is a leaf. |
| CheckGeometryInFather.FatherOf | dune/grid/test/checkgeometryinfather.cc:103 | A father is stored before its child. |
| CheckGeometryInFather.Descendants | dune/grid/test/checkgeometryinfather.cc:137-139 | The hierarchic iterator visits only elements stored after the element. |
| CheckGeometryInFather.ChainDepth | dune/grid/test/checkgeometryinfather.cc:143-163 | The number of father steps is 0 exactly when there is no father. |
| CheckGeometryInFather.Ancestors | dune/grid/test/checkgeometryinfather.cc:99-127 | The father chain from `f` has ChainDepth + 1 members and starts at `f`. |
| CheckGeometryInFather.StepCheck | dune/grid/test/checkgeometryinfather.cc:106-125 | One sons loop either passes, reports the same-id error or reports the not-found error. Passing means the entity was among the sons; the not-found error means it was not. |
| CheckGeometryInFather.ChainCheck | dune/grid/test/checkgeometryinfather.cc:99-127 | The father loop passes at once on an element without a father. Otherwise it passes or reports one of its three errors: level zero with a father, same id, or child not found. |
| CheckGeometryInFather.HierarchyCheck | dune/grid/test/checkgeometryinfather.cc:131-170 | The hierarchy block passes, fails the `count == 0` assertion, or reports the leaf error. Passing means a leaf has no descendants. |
| CheckGeometryInFather.Check | dune/grid/test/checkgeometryinfather.cc:34-39 | A grid with only one level is skipped and passes. `CheckPassIffConsistent` states when any other grid passes. |
| CheckGeometryInFather.StepCheckPass | dune/grid/test/checkgeometryinfather.cc:106-125 | One step passes if and only if the entity is among its father's sons and no other son has its id. |
| CheckGeometryInFather.ChainCheckPass | dune/grid/test/checkgeometryinfather.cc:99-127 | The father loop passes if and only if every ancestor that has a father is off level 0 and passes its step. |
| CheckGeometryInFather.HierarchyCheckPass | dune/grid/test/checkgeometryinfather.cc:131-170 | The hierarchy check passes if and only if every descendant's level equals its chain depth and a leaf has no descendants. |
| CheckGeometryInFather.ElementCheckPass | dune/grid/test/checkgeometryinfather.cc:54-170 | One element passes if and only if `ElementOk` holds for it. |
| CheckGeometryInFather.CheckListPass | dune/grid/test/checkgeometryinfather.cc:48-170 | A level's element loop passes if and only if every element is `ElementOk`. |
| CheckGeometryInFather.CheckLevelsPass | dune/grid/test/checkgeometryinfather.cc:42-170 | The levels loop from i passes if and only if every element of levels i .. maxLevel is `ElementOk`. |
| CheckGeometryInFather.CheckPassIffConsistent | dune/grid/test/checkgeometryinfather.cc:35-170 | The test passes if and only if the hierarchy is `Consistent`. |
| CheckGeometryInFather.FailureIsKnown | dune/grid/test/checkgeometryinfather.cc:99-169 | Every failure is one of the test's five complaints. |
| CheckGeometryInFather.ScanSons | dune/grid/test/checkgeometryinfather.cc:106-125 | The sons loop returns `StepCheck`. An id clash with any other son reports "Two different entities have the same id." Otherwise a missing entity reports "Cannot find child in its own father." |
| CheckGeometryInFather.CheckFatherChain | dune/grid/test/checkgeometryinfather.cc:54-128 | The father loop returns `ChainCheck` of the element's father. A level-0 entity with a father reports "A level zero entity returns hasFather()=true." |
| CheckGeometryInFather.CountDown | dune/grid/test/checkgeometryinfather.cc:142-163 | `count` ends as level minus chain depth. |
| CheckGeometryInFather.CheckHierarchy | dune/grid/test/checkgeometryinfather.cc:131-170 | The hierarchy block returns `HierarchyCheck`: first a failed `count == 0` assertion, then the leaf error. |
| CheckGeometryInFather.CheckGeometryInFather | dune/grid/test/checkgeometryinfather.cc:21-170 | The test returns `Check(h)`: with one level the grid is skipped, otherwise the first failure in level and element order. It passes if and only if `Consistent(h)`. |
| Dgf.ParameterLines | core.py:23-24 | One `key value` line per parameter, in order. |
| Dgf.DgfLines | core.py:16-25 | The list of the text's lines has 8 + (number of parameters) entries. The text itself has exactly these lines only when no value's `str()` contains a newline; `TextLines` proves that case. |
| Dgf.UnlinesAppend | core.py:16-25 | Joining lines distributes over concatenation, so successive `+=` builds the joined text. |
| Dgf.TextParts | core.py:16-25 | The text is the interval part, then the parameter lines, then `#`. |
| Dgf.LinesOfUnlines | core.py:16-25 | Splitting joined newline-free lines at newlines gives the lines back. |
| Dgf.TextLines | core.py:16-25 | When no value prints a newline, splitting the text at newlines gives exactly `DGF`, `INTERVAL`, the three space-joined interval lines, `#`, `GRIDPARAMETER`, the parameter lines and `#`. |
| Dgf.TextFrame | core.py:16-25 | The text starts with `DGF\nINTERVAL\n` and ends with `#\n`. |
| Dgf.EmptyParameterBlock | core.py:21-25 | With no parameters, the `GRIDPARAMETER` line is followed directly by the closing `#`. |
| Dgf.NewCartesianDomain | core.py:14-29 | The successive appends build `DgfText`. The reader is `dgfString`, and `dimgrid` is the length of `lower`. |
| Dgf.MakeCartesianDomain | core.py:32-33 | `cartesianDomain` gives the same domain as the constructor. |
| Dgf.String2Dgf | core.py:39-40 | The pair of `dgfString` and `s` behind a `DGF` header line. |
| Dgf.DomainIsString2Dgf | core.py:26-40 | A domain's tuple is `string2dgf` of its text without the header line. |

## Left out

- Floating point is not modelled: the leaf-data determinants, the midpoint coordinate of the refine call-back, and the geometry checks of `checkGeometryInFather` with their tolerance.
- `makeEmptyElInfo`, `printNeighbour` and the leaf-data routines of `albertaextra.hh` are not part of this model. They only write zeros, print, or compute floating point.
- File I/O is not modelled. This covers `entityNumbers_[i].read/write`, the `.cd` file names, `write` and `release`. `Read` takes the vectors as already read.
- ALBERTA internals are abstract:
  - `DofAccess` is the element's given dofs.
  - A dof-vector traversal (`forEach`, `FOR_ALL_DOFS`) is the given sequence of used dofs.
  - `patch.forEachInternalSubChild` is the given sequence of sub-child dofs. These dofs are distinct. On refinement none of them is live yet; on coarsening all of them are live. ALBERTA guarantees this, so the hooks `RefineNumbering`, `CoarsenNumbering`, `NumberDofs` and `ReleaseDofs` require it. With a repeated dof, the source's refine hook would lose an index and its coarsen hook would free one twice; the model says nothing about that case.
  - A dof-vector traversal in `create` visits distinct dofs, so `Create` and `CreateEntityNumbers` require the used dofs to be distinct.
  - `meshTraverse` is the given sequence of elements.
  - The mesh's vertex count is a parameter.
- Refine and coarsen hooks do not go through the global `tmpIndexStack`. They use the index set's own manager for that codimension, and the `MeshCallBack` singleton is an explicit object.
- The index manager's own code (`agelementindex.cc`) is not part of this model. LIFO reuse and `size` as the high-water mark are modelling choices.
- The `int` indices of the index sets are unbounded integers. Their 32-bit width is modelled only where ids are formed (`AlbertaIdSets.ToId`).
- `AlbertaIdSets.IdSet.IdsDistinct`: uniqueness of vertex ids assumes the vertex dofs are below the vertex count (`Current`). The source takes this from ALBERTA.
- The `MeshCallBack` dispatchers' `void *` casts become a tag that says which `apply` is installed.
- UG's entity storage is the class `UGEntity`:
  - its `subIndex<cc>(i)` is a given function;
  - the grid's counts are counts over its entity lists;
  - the level iterators are the given lists.
- YaspGrid's `size(level, ·)`, `compressedIndex` and `subCompressedIndex` are given functions of the grid and the entity.
- Python's `str()` on the values is a parameter `str`.
- The `structuredGrid` call into `yaspGrid` and `P1VTKFunction` are not modelled. They are foreign calls and floating point.
- The method `dimgrid()` of `CartesianDomain` is not modelled, because the attribute set in `__init__` shadows it.
- `Dgf.EmptyParameterBlock` states the empty parameter block as `IntervalText + "#\n"`, where `IntervalText` ends in `#\nGRIDPARAMETER\n`.
- `CheckGeometryInFather.WellFormed` requires every father to be stored before its children. The source walks father chains of any grid and would loop forever on a cyclic chain.
- The checker compares entities by their position in the hierarchy, and ids by the element's `id`.
- `function.hh`, `dune/grid/concepts/gridview.hh`, `grid/common/gridfactory.hh` and the DGF parser test driver `main.cc` are not part of this model. They are bindings, compile-time concepts, a throwing interface and a test driver.
- The `INDEXSET_HAS_ITERATORS` `begin`/`end` members are left out; traversal order is always a given sequence.
- `AlbertaIndexSets.HierarchicIndexSet.constructor` requires a dimension of 2 or 3 (`Shape` as well). `create` always numbers codimensions 0 and 1 and adds codimension 2 only in 3D (grid/albertagrid/indexsets.hh:189-198); a 1D mesh is not modelled.
- `CheckGeometryInFather.HierarchyCheck` and `CheckHierarchy` model the test's `assert( count == 0 )` as enabled, as in a build without NDEBUG. With NDEBUG the assertion is compiled away, and the test goes straight on to the leaf check.
