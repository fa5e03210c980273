/**
 * PureEntityData of pureEntityData.h: the registry of live entities, the
 * navigation nodes and the id -> node map of the navigation lattice, with
 * the 26-neighbourhood query the A* search expands nodes by.
 */
module EntityData {
  import opened Wrappers
  import opened NavGrid
  import opened Entities

  class PureEntityData {
    /** Every entity created through the world, in creation order. */
    var entities: seq<Entity>
    /** Navigation nodes by lattice id; a key may map to null (see World.RandomGetNode). */
    var gridNodes: map<int, Entity?>
    /** Navigation nodes in creation order. */
    var nodes: seq<Entity>
    /** NodestackSizescubicRoot: the side S of the S x S x S lattice. */
    var gridSize: int

    constructor ()
      ensures entities == [] && gridNodes == map[] && nodes == [] && gridSize == 0
    {
      entities, gridNodes, nodes, gridSize := [], map[], [], 0;
    }

    /**
     * The body of getNeighbors' scan for one offset (dx, dy, dz) from the
     * cell (currentX, currentY, currentZ): the id of the neighbour to push,
     * or None where the body `continue`s.
     */
    method ScanOffset(currentX: int, currentY: int, currentZ: int, dx: int, dy: int, dz: int) returns (r: Option<int>)
      requires gridSize > 0
      ensures r == NeighborAt(gridNodes.Keys, gridSize, Cell(currentX, currentY, currentZ), Cell(dx, dy, dz))
      ensures r.Some? ==> r.value in gridNodes
    {
      var size := gridSize;
      var maxID := size * size * size - 1;
      if dx == 0 && dy == 0 && dz == 0 {
        return None;
      }

      var nx := currentX + dx;
      var ny := currentY + dy;
      var nz := currentZ + dz;
      if nx < 0 || ny < 0 || nz < 0 || nx >= size || ny >= size || nz >= size {
        return None;
      }

      var neighborID := nx + ny * size + nz * size * size;
      if neighborID < 0 || neighborID > maxID {
        return None;
      }
      if neighborID !in gridNodes {
        return None;
      }

      var isDiagonal := Abs(dx) + Abs(dy) + Abs(dz) > 1;
      if isDiagonal {
        var idX := currentX + dx + currentY * size + currentZ * size * size;
        var idY := currentX + (currentY + dy) * size + currentZ * size * size;
        var idZ := currentX + currentY * size + (currentZ + dz) * size * size;
        if idX !in gridNodes || idY !in gridNodes || idZ !in gridNodes {
          return None;
        }
      }
      return Some(neighborID);
    }

    /**
     * One pass of getNeighbors' innermost loop body: the neighbour at offset
     * d is pushed when the scan keeps it.
     */
    method VisitOffset(c: Cell, d: Cell, neighbors: seq<Entity?>, ghost k: nat, ghost ids: seq<int>)
      returns (neighbors': seq<Entity?>, ghost ids': seq<int>)
      requires gridSize > 0 && IsUnitOffset(d) && k == OffsetIndex(d)
      requires ids == NeighborIds(gridNodes.Keys, gridSize, c, k)
      requires |neighbors| == |ids|
      requires forall i :: 0 <= i < |ids| ==> ids[i] in gridNodes && neighbors[i] == gridNodes[ids[i]]
      ensures k < 27 && ids' == NeighborIds(gridNodes.Keys, gridSize, c, k + 1)
      ensures var next := NeighborIds(gridNodes.Keys, gridSize, c, k + 1);
        && |neighbors'| == |next|
        && forall i :: 0 <= i < |next| ==> next[i] in gridNodes && neighbors'[i] == gridNodes[next[i]]
    {
      NeighborIdsStep(gridNodes.Keys, gridSize, c, d);
      var found := ScanOffset(c.x, c.y, c.z, d.x, d.y, d.z);
      neighbors', ids' := neighbors, ids;
      if found.Some? {
        neighbors' := neighbors + [gridNodes[found.value]];
        ids' := ids + [found.value];
      }
    }

    /**
     * getNeighbors: the nodes registered at the lattice neighbours of the
     * entity's id, in the order of the dx/dy/dz scan.  A diagonal neighbour
     * is kept only when the single-axis steps towards it are registered.
     * The source divides by S, so S must be positive.
     */
    method GetNeighbors(entity: Entity) returns (neighbors: seq<Entity?>)
      requires gridSize > 0
      ensures var ids := Neighbors(gridNodes.Keys, gridSize, entity.id as int);
        && |neighbors| == |ids|
        && forall i :: 0 <= i < |ids| ==> ids[i] in gridNodes && neighbors[i] == gridNodes[ids[i]]
    {
      neighbors := [];
      var currentID := entity.id as int;
      var size := gridSize;

      var currentX := currentID % size;
      var currentY := (currentID / size) % size;
      var currentZ := currentID / (size * size);
      ghost var keys := gridNodes.Keys;
      var c := Cell(currentX, currentY, currentZ);
      assert c == Decode(currentID, size);
      ghost var ids: seq<int> := [];
      ghost var k: nat := 0;

      for dx := -1 to 2
        invariant k == 9 * (dx + 1) && ids == NeighborIds(keys, size, c, k)
        invariant |neighbors| == |ids|
        invariant forall i :: 0 <= i < |ids| ==> ids[i] in gridNodes && neighbors[i] == gridNodes[ids[i]]
      {
        for dy := -1 to 2
          invariant k == 9 * (dx + 1) + 3 * (dy + 1) && ids == NeighborIds(keys, size, c, k)
          invariant |neighbors| == |ids|
          invariant forall i :: 0 <= i < |ids| ==> ids[i] in gridNodes && neighbors[i] == gridNodes[ids[i]]
        {
          for dz := -1 to 2
            invariant k == 9 * (dx + 1) + 3 * (dy + 1) + (dz + 1) && ids == NeighborIds(keys, size, c, k)
            invariant |neighbors| == |ids|
            invariant forall i :: 0 <= i < |ids| ==> ids[i] in gridNodes && neighbors[i] == gridNodes[ids[i]]
          {
            neighbors, ids := VisitOffset(c, Cell(dx, dy, dz), neighbors, k, ids);
            k := k + 1;
          }
        }
      }
    }
  }
}
