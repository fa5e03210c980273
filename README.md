# Entity management of the LabEngine space game, in Dafny

This project models the entity-management core of the LabEngine component
system (`engine/render/entityManagement/`) and proves properties of that
model. The core has these parts:

- **Chunk allocator** (`ChunkAllocation`). `ChunkAllocator` is a class whose
  `chunks` field is a sequence of 64-slot chunks. Each chunk has an
  identity, an occupancy list (`true` means occupied, following the
  source's naming) and a live count. Its methods are `Allocate`,
  `Deallocate`, `FindFreeChunk`, `GetChunkIndex`, `IsValid` and
  `DeallocateChunk`. Each is proved against a pure specification
  (`AllocateSpec`, `DeallocateSpec`). Lemmas about those specifications
  cover:
  - first fit;
  - the allocator invariant;
  - which addresses are live;
  - the `invalid_argument` throw, including on the second free of a
    chunk's last object.
- **Component kinds and components** (`ComponentTypes`, `Components`). The
  `ComponentType` bit values are 32-bit vectors. A component is a class
  with `ownerId` and `componentMask`, `SetOwner` and `GetOwner`. Its
  concrete class is kept as a kind tag, and its allocator slot as an
  address.
- **Entities** (`Entities`). An entity is a class with its component list
  and the AI fields. The operations are `AddComponent`, `RemoveComponent`,
  `HasComponent`, `GetComponent`, `FCost` and `CalculateHCost`.
- **The world** (`WorldPools`, `EntityWorld`). `World` owns the eleven
  allocators (one per pool) and the registry (`PureEntityData`). It models:
  - `createEntity` with its per-type sequential ids and the ids saved for
    a respawn;
  - `GetEntity`;
  - `DestroyEntity` and `Cleanup`, whose `dynamic_cast` chains become the
    sequence of `Deallocate` calls they make;
  - the creators (player ship, enemy ship, asteroid, path node), each as
    "allocate and attach these kinds in this order";
  - `randomGetNode` and `getclosestNodeFromAIship`;
  - the respawn hand-off: save the id, create the replacement, destroy the
    old ship.

  `WorldPools` holds the pure model of all pools together: what each
  entity holds and what the destruction chains hand back. On it are
  proved:
  - destroying an entity right after creating it never throws;
  - a particle emitter component's two canon emitters, and (under
    `DestroyEntity`) a nav-node component, stay allocated.
- **Navigation grid** (`NavGrid`, `EntityData`). `getNeighbors` is a triple
  loop in `PureEntityData.GetNeighbors`. It is proved equal to the pure
  function `Neighbors(keys, S, id)`. Lemmas about `Neighbors` cover:
  - soundness;
  - exactly which adjacent cells are returned;
  - the order of the results and that they are distinct;
  - the counts 26 and 7, and symmetry, on a fully populated grid.
- **A\*** (`Pathfinding`). `AstarAlgorithm.FindPath` works on the entities'
  `gCost`, `hCost` and `parentNode`. The heap is a multiset from which any
  node of least `FCost` may be popped. The search invariant keeps the heap
  and `openSet` in step, and keeps parent chains ranked so that
  `RetracePath` terminates. The heuristic `getDistance` and the comparator
  have their own lemmas.
- **Ship path bookkeeping** (`ShipPath`). This is the path part of
  `UpdateAiShip`, as a step function on the path fields, with an invariant
  and a walk-to-the-end lemma.
- **Physics handles** (`PhysicsIds`). `operator==` and `operator!=`.

Source paths below are relative to the repository root.

## Model

| member | source | states |
|---|---|---|
| ChunkAllocation.Occupied | engine/render/entityManagement/chunkAllocator.h:13-18 | the number of occupied flags is at most the chunk size, and is zero exactly when no slot is occupied |
| ChunkAllocation.FirstFree | engine/render/entityManagement/chunkAllocator.h:69-80 | the slot Allocate picks is the lowest free one: every slot before it is occupied, and it is in range exactly when the chunk has a free slot |
| ChunkAllocation.FirstChunkWithFree | engine/render/entityManagement/chunkAllocator.h:120-134 | FindFreeChunk's chunk is the first one, in vector order, that has a free slot; every earlier chunk is full; the index equals the chunk count exactly when all chunks are full |
| ChunkAllocation.ChunkIndex | engine/render/entityManagement/chunkAllocator.h:138-149 | GetChunkIndex gives the first chunk whose block contains the pointer, and nullopt exactly when no chunk does |
| ChunkAllocation.EmptyChunk | engine/render/entityManagement/chunkAllocator.h:58-66 | a chunk appended by Allocate has 64 cleared flags and count 0, so its first free slot is 0 |
| ChunkAllocation.RemoveAt | engine/render/entityManagement/chunkAllocator.h:169 | erasing chunk k keeps every other chunk, in order |
| ChunkAllocation.OccupyKeepsCount | engine/render/entityManagement/chunkAllocator.h:71-74 | setting a free slot's flag and incrementing the count keeps the count equal to the number of occupied flags |
| ChunkAllocation.ReleaseKeepsCount | engine/render/entityManagement/chunkAllocator.h:104-108 | clearing an occupied flag and decrementing the count keeps them in agreement; the count was at least 1 |
| ChunkAllocation.ChunkIndexExact | engine/render/entityManagement/chunkAllocator.h:138-149 | when chunk identities are distinct, GetChunkIndex finds exactly the chunk that contains the address |
| ChunkAllocation.ReplaceChunkValid | engine/render/entityManagement/chunkAllocator.h:71-74 | updating one chunk in place to a valid chunk with the same identity keeps the allocator invariant |
| ChunkAllocation.RemoveChunkValid | engine/render/entityManagement/chunkAllocator.h:161-170 | erasing a chunk keeps the allocator invariant |
| ChunkAllocation.AllocateNeverNull | engine/render/entityManagement/chunkAllocator.h:69-82 | Allocate never reaches `return nullptr`, and the slot it hands out was not live |
| ChunkAllocation.AllocateIsFirstFit | engine/render/entityManagement/chunkAllocator.h:55-80 | Allocate uses the first chunk with a free slot, at its lowest free slot; it appends a chunk (whose first slot it returns) exactly when every chunk is full; all other chunks are unchanged |
| ChunkAllocation.AllocatePreservesValid | engine/render/entityManagement/chunkAllocator.h:51-83 | between calls, every chunk keeps 64 flags, a count equal to the occupied flags and between 1 and 64, and a distinct identity |
| ChunkAllocation.AllocateAddsLive | engine/render/entityManagement/chunkAllocator.h:51-83 | after Allocate, the live addresses are those before plus exactly the returned one |
| ChunkAllocation.AllocateAddsLiveAt | engine/render/entityManagement/chunkAllocator.h:51-83 | the same for one given address |
| ChunkAllocation.AppendEmptyKeepsLive | engine/render/entityManagement/chunkAllocator.h:58-66 | appending a fresh chunk makes no address live |
| ChunkAllocation.DeallocateNullIsNoop | engine/render/entityManagement/chunkAllocator.h:90 | Deallocate(nullptr) changes nothing and does not throw |
| ChunkAllocation.DeallocateForeignThrows | engine/render/entityManagement/chunkAllocator.h:92-96 | Deallocate throws invalid_argument exactly for a non-null address inside no chunk, and then changes nothing |
| ChunkAllocation.DeallocateFreeSlotIsNoop | engine/render/entityManagement/chunkAllocator.h:104-115 | handing back an address that is inside a chunk at a free slot changes nothing (the double-free guard) |
| ChunkAllocation.DeallocatePreservesValid | engine/render/entityManagement/chunkAllocator.h:87-116 | Deallocate keeps the allocator invariant, including when it erases an emptied chunk |
| ChunkAllocation.LiveInChunk | engine/render/entityManagement/chunkAllocator.h:98-104 | an address inside chunk k is live exactly when its slot in chunk k is flagged occupied |
| ChunkAllocation.LiveAfterReplace | engine/render/entityManagement/chunkAllocator.h:104-108 | updating a chunk in place changes liveness only for addresses inside that chunk |
| ChunkAllocation.LiveAfterReplaceAt | engine/render/entityManagement/chunkAllocator.h:104-108 | the same for one given address |
| ChunkAllocation.LiveAfterRemove | engine/render/entityManagement/chunkAllocator.h:161-170 | erasing a chunk makes exactly the addresses inside it stop being live |
| ChunkAllocation.LiveAfterRemoveAt | engine/render/entityManagement/chunkAllocator.h:161-170 | the same for one given address |
| ChunkAllocation.LiveBeforeRemove | engine/render/entityManagement/chunkAllocator.h:161-170 | an address live after the erase was live before, and was outside the erased chunk |
| ChunkAllocation.LiveKeptByRemove | engine/render/entityManagement/chunkAllocator.h:161-170 | a live address outside the erased chunk stays live |
| ChunkAllocation.DeallocateRemovesLive | engine/render/entityManagement/chunkAllocator.h:104-114 | handing back a live address does not throw, and exactly that address stops being live |
| ChunkAllocation.DeallocateRemovesLiveAt | engine/render/entityManagement/chunkAllocator.h:104-114 | the same, for the chunk GetChunkIndex finds and one given address |
| ChunkAllocation.AllocateThenDeallocate | engine/render/entityManagement/chunkAllocator.h:51-116 | handing back the address Allocate just returned succeeds and restores exactly the previous live addresses |
| ChunkAllocation.DoubleFreeOfLastObjectThrows | engine/render/entityManagement/chunkAllocator.h:111-114 | freeing a chunk's last object erases the chunk, so freeing the same address again throws invalid_argument |
| ChunkAllocation.ChunkAllocator.constructor | engine/render/entityManagement/chunkAllocator.h:10 | a new allocator owns no chunk |
| ChunkAllocation.ChunkAllocator.FindFreeChunk | engine/render/entityManagement/chunkAllocator.h:120-134 | the nested scan returns the first chunk that has a free slot, or none exactly when every chunk is full |
| ChunkAllocation.ChunkAllocator.GetChunkIndex | engine/render/entityManagement/chunkAllocator.h:138-149 | the scan returns the first chunk whose block contains the pointer (ChunkIndex) |
| ChunkAllocation.ChunkAllocator.IsValid | engine/render/entityManagement/chunkAllocator.h:153-157 | true exactly when the pointer lies in one of the chunks |
| ChunkAllocation.ChunkAllocator.Allocate | engine/render/entityManagement/chunkAllocator.h:51-83 | the new chunks and the returned pointer are those of AllocateSpec (first fit), and the invariant is kept |
| ChunkAllocation.ChunkAllocator.DeallocateChunk | engine/render/entityManagement/chunkAllocator.h:161-170 | the chunk at the index is erased and the others keep their order |
| ChunkAllocation.ChunkAllocator.Deallocate | engine/render/entityManagement/chunkAllocator.h:87-116 | the new chunks and the outcome (pass or invalid_argument) are those of DeallocateSpec, and the invariant is kept |
| ComponentTypes.Ordinal | engine/render/entityManagement/componentType.h:6-15 | each non-NONE kind has a declaration position below 10 |
| ComponentTypes.NoneNeverTests | engine/render/entityManagement/componentType.h:5 | NONE is 0, so `mask & NONE` is never set |
| ComponentTypes.KindIsPowerOfTwo | engine/render/entityManagement/componentType.h:6-15 | the ten kinds are exactly 1 << 0 through 1 << 9, in declaration order, and each is a single set bit |
| ComponentTypes.ValueInjective | engine/render/entityManagement/componentType.h:5-15 | distinct kinds have distinct values, so kind and bit determine each other |
| ComponentTypes.KindsDisjoint | engine/render/entityManagement/componentType.h:6-15 | distinct kinds share no bit |
| ComponentTypes.OrSetsOnlyItsKind | engine/render/entityManagement/entity.h:73 | OR-ing a kind into a mask makes that kind's test succeed and leaves every other kind's test unchanged |
| ComponentTypes.ClearRemovesItsKind | engine/render/entityManagement/entity.h:87 | `mask &= ~kind` makes that kind's test fail |
| ComponentTypes.ClearKeepsOtherKinds | engine/render/entityManagement/entity.h:87 | clearing one kind's bit leaves every other kind's test unchanged |
| Components.ComponentBase.constructor | engine/render/entityManagement/chunkAllocator.h:77 | a component constructed in its slot by placement new has its kind and slot; for the classes without a user-provided default constructor (transform, rigid body, camera, force, particle emitter) value-initialisation zeroes ownerId and componentMask, for the others they stay indeterminate |
| Components.ComponentBase.Emitter | engine/render/entityManagement/world.h:385-393 | a particle emitter component carries the four emitter slots its creator allocates for it, and starts value-initialised with ownerId and componentMask zero |
| Components.ComponentBase.GetOwner | engine/render/entityManagement/componentBase.h:22-25 | the owner id is the stored ownerId, the one SetOwner last recorded |
| Components.ComponentBase.SetOwner | engine/render/entityManagement/componentBase.h:17-25 | GetOwner afterwards returns the given id, and the mask is untouched |
| Components.FirstOfKind | engine/render/entityManagement/entity.h:113-121 | the first component in list order whose class is the kind, or the list length when none is |
| Components.FirstTesting | engine/render/entityManagement/entity.h:79-85 | the first mask in list order whose test for the kind succeeds, or the length when none does |
| Components.FirstTestingNone | engine/render/entityManagement/entity.h:84 | no mask tests positive for NONE, so RemoveComponent(NONE) finds nothing |
| Entities.Manhattan | engine/render/entityManagement/entity.h:52-55 | the sum of per-axis distances is zero exactly between equal positions |
| Entities.Entity.constructor | engine/render/entityManagement/entity.h:58-62 | Entity(id) has that id, type Unknown, no components, and the member-initialiser AI state (null parent, empty path, index 0, zero costs and timer, flags false) |
| Entities.Entity.Allocated | engine/render/entityManagement/entity.h:19-45 | a default-constructed entity in its slot has the type and id createEntity gives it, no components and the initial AI state |
| Entities.Entity.FCost | engine/render/entityManagement/entity.h:36 | the A* total estimate is the cost so far plus the heuristic, so with a non-negative heuristic it is at least the cost so far |
| Entities.Entity.GetComponent | engine/render/entityManagement/entity.h:109-122 | null exactly when no attached component has class T; otherwise the first attached component of class T |
| Entities.Entity.HasComponent | engine/render/entityManagement/entity.h:100-106 | the result is the bit test of the first component's mask only; it is false for NONE |
| Entities.Entity.CalculateHCost | engine/render/entityManagement/entity.h:49-56 | ten times the Manhattan distance from the transform's position to the goal: non-negative, a multiple of 10, zero exactly at the goal |
| Entities.Entity.AddComponent | engine/render/entityManagement/entity.h:69-75 | the component's owner becomes the entity id, its mask gains the kind's bit, and it is appended at the end with no duplicate check |
| Entities.Entity.RemoveComponent | engine/render/entityManagement/entity.h:76-98 | only the first component whose mask tests positive is erased, with that bit cleared; the others keep their order and masks; nothing changes when none matches |
| PhysicsIds.Equal | engine/render/entityManagement/physicsid.h:15-18 | `==` holds exactly when index and generation both agree |
| PhysicsIds.NotEqual | engine/render/entityManagement/physicsid.h:20-23 | `!=` is exactly the negation of `==` |
| PhysicsIds.EqualIsEquivalence | engine/render/entityManagement/physicsid.h:15-18 | `==` is reflexive, symmetric and transitive |
| NavGrid.Offset | engine/render/entityManagement/pureEntityData.h:56-60 | every loop step's offset has each component in -1..1 |
| NavGrid.DecodeEncode | engine/render/entityManagement/pureEntityData.h:51-53 | decoding the id of an in-grid cell gives back the cell |
| NavGrid.EncodeDecode | engine/render/entityManagement/pureEntityData.h:51-53 | re-encoding the decoded cell of a non-negative id gives back the id |
| NavGrid.DecodeRange | engine/render/entityManagement/pureEntityData.h:46-53 | a decoded id has x and y in 0..S-1 and z >= 0, and lies in the grid exactly when the id is at most maxID = S^3 - 1 |
| NavGrid.EncodeInRange | engine/render/entityManagement/pureEntityData.h:71-79 | an in-bounds neighbour's id lies in 0..maxID, so the `neighborID > maxID` test never fires |
| NavGrid.OffsetRoundTrip | engine/render/entityManagement/pureEntityData.h:56-60 | the triple loop visits each of the 27 unit offsets at exactly one step |
| NavGrid.NeighborIdsStep | engine/render/entityManagement/pureEntityData.h:56-109 | the step for an offset appends what the loop body yields for it |
| NavGrid.AdjacentOffset | engine/render/entityManagement/pureEntityData.h:66-68 | between adjacent cells the offset is a non-zero unit offset leading from one to the other |
| NavGrid.NeighborIdsMembership | engine/render/entityManagement/pureEntityData.h:56-109 | an id is pushed by the first steps exactly when one of those steps yields it |
| NavGrid.CandidateFacts | engine/render/entityManagement/pureEntityData.h:62-109 | a pushed id is in gridNodes, lies in 0..maxID, and is the id of the in-grid cell reached by a non-zero offset |
| NavGrid.EncodeInjective | engine/render/entityManagement/pureEntityData.h:75 | distinct in-grid cells have distinct ids |
| NavGrid.OffsetStepAdjacent | engine/render/entityManagement/pureEntityData.h:62-68 | a non-zero offset leads to an adjacent, different cell |
| NavGrid.NeighborsSound | engine/render/entityManagement/pureEntityData.h:42-116 | every returned id is registered, lies in 0..maxID, is not the node itself, and names an in-grid cell adjacent to the node's |
| NavGrid.NeighborIdsLength | engine/render/entityManagement/pureEntityData.h:62-64 | the zero offset is skipped, so after step 13 fewer ids than steps have been pushed |
| NavGrid.NeighborsAtMost26 | engine/render/entityManagement/pureEntityData.h:56-112 | getNeighbors returns at most 26 ids |
| NavGrid.NeighborAtAdjacent | engine/render/entityManagement/pureEntityData.h:71-104 | for an adjacent in-grid cell, the loop body keeps it exactly when it is registered and, for a diagonal, the three single-axis steps are registered |
| NavGrid.CandidateInjective | engine/render/entityManagement/pureEntityData.h:56-109 | two different loop steps never yield the same id |
| NavGrid.NeighborIdsComplete | engine/render/entityManagement/pureEntityData.h:56-109 | an adjacent in-grid cell's id is pushed exactly when the loop body for its offset keeps it |
| NavGrid.NeighborsComplete | engine/render/entityManagement/pureEntityData.h:82-104 | an adjacent in-grid cell is returned exactly when its id is registered and, for a diagonal, its single-axis steps are registered; two-axis intermediates of a three-axis move are not consulted |
| NavGrid.NeighborIdsInLoopOrder | engine/render/entityManagement/pureEntityData.h:56-109 | results come in loop order (dx, then dy, then dz, each from -1 to 1): the i-th id was pushed at the i-th of strictly increasing loop steps |
| NavGrid.NeighborsDistinct | engine/render/entityManagement/pureEntityData.h:56-109 | no id is returned twice |
| NavGrid.FullGridNeighbors | engine/render/entityManagement/pureEntityData.h:56-109 | on a fully populated grid, v is returned for u exactly when their cells are adjacent |
| NavGrid.FullGridSymmetric | engine/render/entityManagement/pureEntityData.h:56-109 | on a fully populated grid the neighbour relation is symmetric |
| NavGrid.FullGridStepYields | engine/render/entityManagement/pureEntityData.h:56-109 | on a fully populated grid, every non-zero offset that stays in the grid yields a neighbour |
| NavGrid.InteriorCount | engine/render/entityManagement/pureEntityData.h:56-109 | for an interior cell of a full grid with S >= 3, every step but the zero offset pushes an id |
| NavGrid.FullGridInteriorHas26 | engine/render/entityManagement/pureEntityData.h:56-109 | on a fully populated grid with S >= 3, an interior node has 26 neighbours |
| NavGrid.CornerCount | engine/render/entityManagement/pureEntityData.h:56-109 | from the corner of a full grid with S >= 2, exactly the corner steps push an id |
| NavGrid.FullGridCornerHas7 | engine/render/entityManagement/pureEntityData.h:56-109 | on a fully populated grid with S >= 2, the corner node 0 has 7 neighbours |
| NavGrid.CornerStepsTotal | engine/render/entityManagement/pureEntityData.h:56-72 | seven of the 27 offsets lead from the corner into the grid |
| EntityData.PureEntityData.constructor | engine/render/entityManagement/pureEntityData.h:10-15 | a new registry has no entities, no nodes, an empty id -> node map and grid size 0 |
| EntityData.PureEntityData.ScanOffset | engine/render/entityManagement/pureEntityData.h:62-104 | the loop body for one offset yields what NeighborAt says, and only a key present in gridNodes |
| EntityData.PureEntityData.VisitOffset | engine/render/entityManagement/pureEntityData.h:60-110 | one pass of the innermost loop extends the pushed nodes to those of the next loop step |
| EntityData.PureEntityData.GetNeighbors | engine/render/entityManagement/pureEntityData.h:42-116 | the returned nodes are the gridNodes entries for Neighbors(keys, S, id), in order; the map is only read |
| Pathfinding.Octile | engine/render/entityManagement/AstarAlgorithm.h:137-142 | the cost formula over the sorted deltas lies between 10 and 17 times the largest delta and is at most ten times their sum |
| Pathfinding.Distance | engine/render/entityManagement/AstarAlgorithm.h:127-143 | getDistance is zero exactly between equal positions and never exceeds the Manhattan-based CalculateHCost |
| Pathfinding.DistanceSymmetric | engine/render/entityManagement/AstarAlgorithm.h:127-143 | getDistance is symmetric |
| Pathfinding.DistanceAxisCases | engine/render/entityManagement/AstarAlgorithm.h:137-142 | deltas (k,0,0), (k,k,0) and (k,k,k) cost 10k, 14k and 17k |
| Pathfinding.GetDistance | engine/render/entityManagement/AstarAlgorithm.h:127-143 | the distance between two entities' transforms is non-negative and zero exactly when their positions agree |
| Pathfinding.CompareIsStrictWeakOrder | engine/render/entityManagement/AstarAlgorithm.h:39-42 | the comparator is irreflexive and transitive, and its incomparability is transitive, as priority_queue requires |
| Pathfinding.Least | engine/render/entityManagement/AstarAlgorithm.h:86-89 | every non-empty open set has a node of least FCost, which top() may return |
| Pathfinding.Reverse | engine/render/entityManagement/AstarAlgorithm.h:156 | std::reverse: the i-th element becomes the (n-1-i)-th |
| Pathfinding.RetracePath | engine/render/entityManagement/AstarAlgorithm.h:145-158 | the path leads from start (excluded) to end by parent links, in start-to-end order, and is empty exactly when end is start; the walk ends because parent ranks go down |
| Pathfinding.SameIdIsEnd | engine/render/entityManagement/AstarAlgorithm.h:94-97 | when ids are unique among the nodes, the popped node with end's id is end itself |
| Pathfinding.Price | engine/render/entityManagement/AstarAlgorithm.h:109-112 | a neighbour gets the given gCost and hCost and the current node as parent |
| Pathfinding.AstarAlgorithm.constructor | engine/render/entityManagement/AstarAlgorithm.h:49-52 | the search starts with the registry and empty open heap, openSet and closedList |
| Pathfinding.InitialSearchState | engine/render/entityManagement/AstarAlgorithm.h:78-83 | after clearing and seeding start, the search invariant holds |
| Pathfinding.SearchStateRanked | engine/render/entityManagement/AstarAlgorithm.h:84-123 | in every search state, each closed node's parent chain leads down to start |
| Pathfinding.AstarAlgorithm.ContainsInOpenList | engine/render/entityManagement/AstarAlgorithm.h:44-47 | while openSet mirrors the heap, the lookup answers whether the node is queued in the heap |
| Pathfinding.AstarAlgorithm.Relax | engine/render/entityManagement/AstarAlgorithm.h:102-119 | one neighbour visit keeps the search invariant; a neighbour neither closed nor open joins the open set with gCost = current gCost + getDistance, hCost = getDistance to end and parent current; a closed or open one keeps its costs and parent and the open set is unchanged (`newCost < current->gCost` never holds) |
| Pathfinding.AstarAlgorithm.Open | engine/render/entityManagement/AstarAlgorithm.h:109-118 | a new neighbour gets its costs and the current node as parent and joins the open set, keeping the invariant |
| Pathfinding.AstarAlgorithm.Top | engine/render/entityManagement/AstarAlgorithm.h:88 | top() gives an open node of least FCost |
| Pathfinding.AstarAlgorithm.Close | engine/render/entityManagement/AstarAlgorithm.h:89-92 | pop, openSet.erase and closedList.insert move the node from the heap and open set to the closed set |
| Pathfinding.AstarAlgorithm.Pop | engine/render/entityManagement/AstarAlgorithm.h:88-97 | the popped node was open, not closed, and of least FCost among the open ones; it moves from open to closed, no open or closed node's costs or parent change, its parent (unless it is start) was already closed, and it is reported found exactly when it is end |
| Pathfinding.AstarAlgorithm.ExpandNode | engine/render/entityManagement/AstarAlgorithm.h:99-120 | relaxing every neighbour getNeighbors returns keeps the invariant and the closed set, only grows the open set, leaves the costs and parents of previously open and of closed nodes alone, and afterwards every neighbour id names a node that is open or closed |
| Pathfinding.AstarAlgorithm.RelaxAll | engine/render/entityManagement/AstarAlgorithm.h:99-120 | the loop over the neighbour list keeps the invariant and the recorded costs of previously open and closed nodes, and leaves every listed neighbour open or closed |
| Pathfinding.AstarAlgorithm.RelaxKeeping | engine/render/entityManagement/AstarAlgorithm.h:102-119 | one neighbour visit leaves it open or closed, only grows the open set and keeps the recorded costs of previously open and closed nodes |
| Pathfinding.AstarAlgorithm.Round | engine/render/entityManagement/AstarAlgorithm.h:86-120 | one round closes a previously open node of least FCost whose parent (unless it is start) was closed before, keeps the costs and parents of previously open and closed nodes, reports it found exactly when it is end, and otherwise leaves every neighbour open or closed |
| Pathfinding.PopOrderExtends | engine/render/entityManagement/AstarAlgorithm.h:86-92 | appending a newly closed node whose parent was closed earlier keeps the pop order: starts at start, no repeats, each parent before its child |
| Pathfinding.AstarAlgorithm.OrderedRound | engine/render/entityManagement/AstarAlgorithm.h:86-120 | a round closes an open node of least FCost and appends it to the pop order, keeping the order in step with the closed set and found exactly when end is closed; every closed node other than end still has all its neighbours open or closed |
| Pathfinding.AstarAlgorithm.ExploredAfter | engine/render/entityManagement/AstarAlgorithm.h:86-120 | after a round, every closed node other than end has each neighbour getNeighbors lists open or closed: the earlier ones because the open set only lost the popped node, the popped one because it was expanded |
| Pathfinding.AstarAlgorithm.WalkStaysIn | engine/render/entityManagement/pureEntityData.h:42-116 | a walk over getNeighbors steps that starts in a set closed under neighbours stays in it |
| Pathfinding.AstarAlgorithm.ClosedSetSeparates | engine/render/entityManagement/pureEntityData.h:42-116 | a set closed under neighbours holding start but not end admits no walk from start to end |
| Pathfinding.AstarAlgorithm.Search | engine/render/entityManagement/AstarAlgorithm.h:86-121 | the while loop stops with end closed (the last node popped) or the heap empty; the closed nodes are exactly the pop order, which starts at start, repeats nothing and closes each parent before its child; when end was not reached the closed set is closed under getNeighbors |
| Pathfinding.AstarAlgorithm.SearchEnds | engine/render/entityManagement/AstarAlgorithm.h:86 | when the loop exits, end is closed and was the last node popped, or the heap is empty |
| Pathfinding.AstarAlgorithm.FindPath | engine/render/entityManagement/AstarAlgorithm.h:76-124 | the heap holds each open node once and nothing else; open and closed are disjoint; the search stops when end is closed or the heap is empty; the closed nodes are exactly a pop order starting at start with each parent closed before its child; the result retraces parents from start to end when end was reached, otherwise to the last node of that order; it is empty when start is end; when end is not closed, the closed set is closed under getNeighbors and no walk over getNeighbors steps leads from start to end |
| ShipPath.InitialConsistent | engine/render/entityManagement/entity.h:38-41 | the entity's initial path fields are a consistent path state |
| ShipPath.StepKeepsConsistent | engine/render/entityManagement/world.h:1037-1216 | every tick keeps the path state consistent: no path before the start node is reached, the index within 0..path size, the timer non-negative |
| ShipPath.ReachingStartInstallsPath | engine/render/entityManagement/world.h:1045-1052 | arriving at the start node with no path sets the flag and installs the requested path; before that nothing changes |
| ShipPath.IndexAdvancesAtMostOne | engine/render/entityManagement/world.h:1119-1140 | the index goes up by exactly one only while following the path, close to the node, once the timer reaches 0.05 (the timer is then reset); otherwise it stays or is reset to 0 |
| ShipPath.CompletedPathResets | engine/render/entityManagement/world.h:1210-1216 | a completed path clears both flags and the path, and sets the index to 0 |
| ShipPath.PathIsWalkedToTheEnd | engine/render/entityManagement/world.h:1119-1216 | a path of n remaining nodes is walked in n advancing ticks and one resetting tick |
| ShipPath.UpdatePathState | engine/render/entityManagement/world.h:1037-1216 | the entity's path fields become what PathStep gives, and no other field changes |
| WorldPools.PoolOf | engine/render/entityManagement/world.h:16-26 | each component class is allocated from its own pool; FORCE and NONE have none |
| WorldPools.ReleasePool | engine/render/entityManagement/world.h:212-310 | the dynamic_cast chain hands a component back to the pool it came from, except that DestroyEntity's chain has no nav-node branch |
| WorldPools.ReleaseAll | engine/render/entityManagement/world.h:209-254 | a run of Deallocate calls stops at the first throw and only ever passes or throws invalid_argument |
| WorldPools.ReleaseAllPreservesValid | engine/render/entityManagement/world.h:262-321 | any run of Deallocate calls keeps every allocator valid |
| WorldPools.ReleaseAllFailSticks | engine/render/entityManagement/world.h:262-321 | once a Deallocate has thrown, none of the later calls is made |
| WorldPools.CleanupTail | engine/render/entityManagement/world.h:266-317 | Cleanup's loop has made all of its Deallocate calls once it reaches the end of the registry or a throw |
| WorldPools.ReleaseEntityTail | engine/render/entityManagement/world.h:209-254 | after the component loop, a throw ends the entity's release; otherwise its own slot is handed back last |
| WorldPools.ReleaseLiveNeverFails | engine/render/entityManagement/world.h:262-321 | handing back distinct live slots never throws, and exactly those slots stop being live |
| WorldPools.ReleaseLiveOne | engine/render/entityManagement/chunkAllocator.h:104-114 | handing back one live slot passes, and it is the only slot to stop being live |
| WorldPools.DestroySkipsNavNodes | engine/render/entityManagement/world.h:209-246 | DestroyEntity's component chain never hands anything back to the nav-node pool or the entity pool |
| WorldPools.ParticlesOnlyFromEmitters | engine/render/entityManagement/world.h:241-246 | the particle pool only gets back a particle emitter component's left and right emitters |
| WorldPools.ComponentIsReleased | engine/render/entityManagement/world.h:212-246 | every component of a class the chain knows is handed back to its own pool at its own address |
| WorldPools.AllocateInPool | engine/render/entityManagement/chunkAllocator.h:51-83 | one Allocate on a pool keeps all pools valid and makes exactly one new, previously non-live slot live |
| WorldPools.ReleasesWithinHoldings | engine/render/entityManagement/world.h:209-310 | every Deallocate of the chain hands back a slot the components hold, never one twice |
| WorldPools.ComponentReleasesWithinHoldings | engine/render/entityManagement/world.h:241-246 | one component hands back only slots it holds, without repeats |
| WorldPools.CanonsNotReleased | engine/render/entityManagement/world.h:241-246 | a particle emitter component's two canons are held but never handed back by either chain |
| WorldPools.EmitterKeepsCanons | engine/render/entityManagement/world.h:241-246 | the same for one component |
| WorldPools.DestroyAfterCreate | engine/render/entityManagement/world.h:197-260 | destroying an entity whose slots are distinct and live never throws; exactly the released slots stop being live, and the canons stay live |
| WorldPools.SlotPools | engine/render/entityManagement/world.h:385-393 | a component takes a slot of its own pool first, and a particle emitter then four particle slots |
| WorldPools.AllocateAllGrows | engine/render/entityManagement/world.h:363-393 | a creator's allocations keep every pool valid, hand out distinct slots that were not live, and make exactly those live |
| WorldPools.CreateThenDestroy | engine/render/entityManagement/world.h:197-260 | destroying an entity right after creating it never throws; what stays live is what was live before plus the held slots the chain does not hand back |
| WorldPools.ReleasesCoverHoldings | engine/render/entityManagement/world.h:209-254 | for an entity with no particle emitter, whose classes all have a branch, every held slot is handed back |
| WorldPools.NavNodeSlotLeaks | engine/render/entityManagement/world.h:209-246 | DestroyEntity leaves a nav-node component's slot allocated: it is held but not handed back |
| EntityWorld.TypeCount | engine/render/entityManagement/world.h:129-136 | the count of a type never exceeds the registry size |
| EntityWorld.TypeCountZero | engine/render/entityManagement/world.h:129-138 | the count is zero exactly when no entity has the type |
| EntityWorld.TypeCountAll | engine/render/entityManagement/world.h:129-138 | the count is the registry size exactly when every entity has the type |
| EntityWorld.FirstMatch | engine/render/entityManagement/world.h:199-202 | DestroyEntity's find_if gives the first entity with both the id and the type, or the end |
| EntityWorld.FirstWithId | engine/render/entityManagement/world.h:165 | GetEntity's find_if gives the first entity with the id, whatever its type, or the end |
| EntityWorld.TypeCountGrows | engine/render/entityManagement/world.h:126-148 | along the registry, a type's count never drops and rises past each entity of that type |
| EntityWorld.SequentialIdsAreUnique | engine/render/entityManagement/world.h:138 | when every id is the count of its type before it, no two entities share a type and an id |
| EntityWorld.CreateKeepsSequential | engine/render/entityManagement/world.h:126-148 | appending an entity whose id is its type's count keeps the ids sequential per type |
| EntityWorld.FirstMatchFindsIt | engine/render/entityManagement/world.h:199-204 | with unique keys, DestroyEntity finds exactly the entity whose key it is given |
| EntityWorld.Erase | engine/render/entityManagement/world.h:257 | vector::erase removes one element and keeps the others in order |
| EntityWorld.RespawnReplacesOldShip | engine/render/entityManagement/world.h:989-991 | after the replacement is appended, DestroyEntity still stops at the old ship; the old ship is gone, the replacement takes its key, and keys stay unique |
| EntityWorld.ReplaceKeepsKeysUnique | engine/render/entityManagement/world.h:1344-1346 | erasing an entity and appending one with its key keeps keys unique |
| EntityWorld.EraseRemovesIt | engine/render/entityManagement/world.h:257 | with unique keys, the erased entity occurs nowhere else |
| EntityWorld.EmptyPools | engine/render/entityManagement/world.h:16-26 | a new world's allocators are all empty and valid, and nothing is live |
| EntityWorld.PathNodeKeepsRegistry | engine/render/entityManagement/world.h:801-820 | the node list and the id -> node map agree after CreatePathNode: the i-th node is stored under key i |
| EntityWorld.RespawnPools | engine/render/entityManagement/world.h:989-991 | a respawn's destroy of the old ship never throws; afterwards the replacement's slots are live and the old ship's released slots are not |
| EntityWorld.AttachFold | engine/render/entityManagement/world.h:365-386 | the entity's slots after one more attached component are the creator's allocations so far |
| EntityWorld.NodeDists | engine/render/entityManagement/world.h:841-845 | getclosestNodeFromAIship measures the squared distance from the ship to each node's transform |
| EntityWorld.SqDist | engine/render/entityManagement/world.h:844-845 | the squared distance is zero exactly between equal positions |
| EntityWorld.World.constructor | engine/render/entityManagement/world.h:89-94 | the world uses the given registry, its saved ids are 0, and every allocator is empty |
| EntityWorld.World.AllocateIn | engine/render/entityManagement/world.h:16-26 | Allocate on one pool's allocator follows AllocateSpec; the other pools keep their state |
| EntityWorld.World.ReleaseIn | engine/render/entityManagement/world.h:212-254 | Deallocate on one pool's allocator follows DeallocateSpec; the other pools keep their state |
| EntityWorld.World.ReleaseComponent | engine/render/entityManagement/world.h:212-246 | one branch of the dynamic_cast chain makes the calls ComponentReleases lists |
| EntityWorld.World.ReleaseEmitter | engine/render/entityManagement/world.h:241-246 | the particle-emitter branch hands back the left emitter, the right emitter, then the component, stopping at a throw |
| EntityWorld.World.ReleaseEmitterTail | engine/render/entityManagement/world.h:244-245 | the right emitter, then the component, stopping at a throw |
| EntityWorld.World.ReleaseEntity | engine/render/entityManagement/world.h:209-254 | an entity's components in list order, then its own slot, stopping at the first throw |
| EntityWorld.World.ReleaseNext | engine/render/entityManagement/world.h:209-250 | one more component extends the calls made so far by its own |
| EntityWorld.World.DestroyEntity | engine/render/entityManagement/world.h:197-260 | the first entity with the id and type hands back its components (no nav-node branch) and its slot, then is erased; an unknown key changes nothing; a throw leaves the registry as it was |
| EntityWorld.World.Cleanup | engine/render/entityManagement/world.h:262-321 | every registered entity, nav nodes included, hands back its slots in order; the registry is then empty, unless a Deallocate threw |
| EntityWorld.World.ReleaseRegistry | engine/render/entityManagement/world.h:266-317 | Cleanup's loop makes the calls of CleanupReleases, stopping at the first throw |
| EntityWorld.World.CleanupNext | engine/render/entityManagement/world.h:266-317 | one more entity extends the calls made so far by its own |
| EntityWorld.World.CountType | engine/render/entityManagement/world.h:129-136 | the count loop returns the number of registered entities of the type |
| EntityWorld.World.Register | engine/render/entityManagement/world.h:148 | the entity is appended to the registry |
| EntityWorld.World.AllocateNext | engine/render/entityManagement/world.h:365-393 | one more Allocate extends the creator's allocations so far |
| EntityWorld.World.CreateEntity | engine/render/entityManagement/world.h:119-152 | a new entity of the type, with no components and the initial AI state, takes one entity slot and is appended; its id is the count of its type before (wrapped to 32 bits), or savedID / savedEnemyID for a respawned player / enemy ship |
| EntityWorld.World.NewComponent | engine/render/entityManagement/world.h:365-383 | a component of a non-emitter class takes one fresh slot of its pool |
| EntityWorld.World.AllocateParticles | engine/render/entityManagement/world.h:389-393 | the four particle emitters come from the particle pool in the order left, right, left canon, right canon |
| EntityWorld.World.NewEmitter | engine/render/entityManagement/world.h:385-393 | a particle emitter component takes its slot, then the four particle slots |
| EntityWorld.World.NewSlots | engine/render/entityManagement/world.h:365-393 | a component of any pooled class takes the slots SlotPools names |
| EntityWorld.World.Link | engine/render/entityManagement/world.h:365-386 | AddComponent appends the component to the entity, owned by it and carrying its kind's bit, after the earlier ones |
| EntityWorld.World.Attach | engine/render/entityManagement/world.h:365-386 | one allocate-and-attach step: fresh slots, appended after the earlier components, owned and with its bit |
| EntityWorld.World.AttachTransform | engine/render/entityManagement/world.h:365-367 | the first component is a transform, moved to the given position when one is given |
| EntityWorld.World.AttachAll | engine/render/entityManagement/world.h:369-386 | the further classes are allocated and attached in order after the earlier components |
| EntityWorld.World.CreateWithTransform | engine/render/entityManagement/world.h:363-367 | createEntity followed by a transform: the id and registry facts of CreateEntity, and the slots of both |
| EntityWorld.World.CreateWith | engine/render/entityManagement/world.h:363-393 | createEntity, then the listed classes in order: an appended entity holding exactly the creator's allocations |
| EntityWorld.World.CreatePlayerShip | engine/render/entityManagement/world.h:332-525 | a SpaceShip with transform, renderable, collider, camera, input and particle emitter, at (0, 10, 0) unless respawned (then at the origin); its id is the type's count, or savedID when respawned |
| EntityWorld.World.CreateEnemyShip | engine/render/entityManagement/world.h:526-718 | an EnemyShip with transform, renderable, collider, AI controller, camera and particle emitter at the origin; its id is the type's count, or savedEnemyID when respawned |
| EntityWorld.World.CreateAsteroid | engine/render/entityManagement/world.h:719-784 | an Asteroid with transform, renderable and collider, moved by the random offset |
| EntityWorld.World.RegisterNode | engine/render/entityManagement/world.h:816-820 | the node is appended to the node list and stored under its id in the id -> node map |
| EntityWorld.World.CreatePathNode | engine/render/entityManagement/world.h:785-822 | a Node with a transform at (-100, -100, -100) + delta * offsets and a nav-node component, appended to the node list and stored under its id; the node registry stays consistent |
| EntityWorld.World.GetEntity | engine/render/entityManagement/world.h:163-172 | the first registered entity with the id, whatever its type, or null |
| EntityWorld.World.RandomGetNode | engine/render/entityManagement/world.h:823-827 | the index is the draw modulo the node count; a missing key gets a null entry inserted by operator[]; with a consistent node registry, the node at that index is returned and the map is unchanged |
| EntityWorld.World.GetClosestNode | engine/render/entityManagement/world.h:828-858 | null exactly when there are no nodes; otherwise the first node at least squared distance from the ship |
| EntityWorld.World.RespawnPlayerShip | engine/render/entityManagement/world.h:984-993 | the id is saved and a replacement with that id is created; with unique keys, the old ship's slots are handed back after the replacement's allocations, and the old ship is replaced in the registry with keys kept unique |
| EntityWorld.World.DestroyReplaced | engine/render/entityManagement/world.h:991 | DestroyEntity right after the replacement was appended removes the old ship, not the replacement |
| EntityWorld.World.RespawnEnemyShip | engine/render/entityManagement/world.h:1337-1349 | the same for the enemy ship, with savedEnemyID |

## Left out

- Floating point: positions are integer lattice positions (`Pos`). The per-axis float-to-int truncations in `CalculateHCost` and `getDistance` are therefore exact. The arrival timer is a `real` rather than a 32-bit float.
- Randomness: `std::rand()` in `randomGetNode` is the parameter `rand`. The random translation of `CreateAsteroid` is the parameter `offset`. The random model and collider-mesh choice is not modelled.
- Rendering, model and collider-mesh loading, particle-emitter parameters, camera lookup and `Physics::CreateCollider` are not modelled; the creators keep only "allocate and attach these kinds in this order".
- The physics raycasts and the `distance <= 40.0f` tests are inputs to the model: a respawn is a call, and `closeToTarget` is a boolean.
- `World::Update` is not modelled. It iterates over `entities` while `DestroyEntity` erases from it and the creators append to it, which invalidates its iterator. Only single per-entity steps are modelled.
- Movement, orientation, camera and particle updates in `UpdateShip` and `UpdateAiShip` are not modelled, and neither are `UpdateAsteroid`, `drawNode`, `draw` and `updateCamera`.
- `UpdateAiShip` can read `closestNodeFromShip` uninitialised when `closestNodeCalled` is set. The model takes the requested path as an input instead.
- The `instance`/`destroy` singletons of World, PureEntityData and AstarAlgorithm, and the destructors, are not modelled.
- `DestroyWorld` is not modelled; it is `Cleanup` followed by deleting the singleton.
- `AttachComponentToEntity` (world.h:154-161) is not a separate member. It is `GetEntity` followed by `AddComponent`, and both are modelled.
- `RemoveComponent`'s `delete` of allocator-owned memory, and placement new over array elements, are not modelled: removal is list removal and allocation is slot occupancy.
- An address is the pair (chunk identity, slot). A fresh chunk takes a new identity, so the reuse of a freed block's address by a later `new[]` is not modelled.
- `components.h` data (matrices, colliders, cameras, particle data) is not part of this model; a component is its class tag, its slot, its translation and, for a particle emitter, its four emitter slots.
- EntityWorld.World.CreateEntity: a respawned entity of a type other than SpaceShip or EnemyShip keeps an indeterminate id; the model picks an arbitrary one and states nothing about it.
- EntityWorld.World.CreateWithTransform: does not restate the initial AI state of the new entity (stated for CreateEntity).
- EntityWorld.World.CreateWith: does not restate the initial AI state of the new entity (stated for CreateEntity).
- EntityWorld.World.CreatePlayerShip: does not restate the initial AI state of the new entity (stated for CreateEntity).
- EntityWorld.World.CreateEnemyShip: does not restate the initial AI state of the new entity (stated for CreateEntity).
- EntityWorld.World.CreateAsteroid: does not restate the initial AI state of the new entity (stated for CreateEntity).
- EntityWorld.World.CreatePathNode: does not restate the initial AI state of the new entity (stated for CreateEntity).
- EntityWorld.World.RegisterNode: does not restate the node's AI state, which it does not touch.
- ChunkAllocation.ChunkAllocator.constructor: states the empty model rather than `Valid()`. The invariant follows from it, and the World constructor relies on that.
- Entities.Entity.HasComponent: requires a non-empty component list, because the source returns no value otherwise.
- EntityWorld.World.RandomGetNode: requires a non-empty node list, because the source divides by its size.
- EntityData.PureEntityData.GetNeighbors: requires a grid size above zero, because the source divides by it and it starts at 0.
- EntityWorld.World.GetClosestNode: requires every node and the ship to have a transform, because the source dereferences it.
- Pathfinding.AstarAlgorithm.FindPath: requires a positive grid size, transforms on start, end and every node, no null value in gridNodes (a null would be dereferenced in getDistance), and no other node sharing end's id. Its parent chains are followed through ghost ranks. It does not reset start's gCost, as in the source. Which of several least-FCost nodes leaves the heap first is left open (std::priority_queue does not fix it); the order actually taken is returned as the ghost `order`.
- 32-bit `int` arithmetic: ids, grid sizes and costs are unbounded integers. The source converts the uint32 id to `int` (pureEntityData.h:46), computes `size * size * size - 1` in `int` (pureEntityData.h:48) and sums gCost values in `int` (AstarAlgorithm.h:105-110); the model does not capture their overflow, which needs ids of 2^31 or more, a grid side above 1290 or path costs beyond 2^31.
- Components.ComponentBase.constructor: for the navigation-node and AI-controller classes, whose definitions are not part of this model, ownerId and componentMask are left arbitrary rather than zeroed.
