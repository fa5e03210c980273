/**
 * AstarAlgorithm of AstarAlgorithm.h: A* over the navigation nodes, with an
 * integer octile distance as both step cost and heuristic, a min-F open
 * heap, an open-membership set and a closed set, and path reconstruction by
 * walking parent links.
 */
module Pathfinding {
  import opened Wrappers
  import opened ComponentTypes
  import opened Components
  import opened Entities
  import opened EntityData
  import opened NavGrid

  // ------------------------------------------------------------ distance

  function Min3(a: int, b: int, c: int): (m: int)
    ensures m <= a && m <= b && m <= c && (m == a || m == b || m == c)
  {
    if a <= b && a <= c then a else if b <= c then b else c
  }

  function Max3(a: int, b: int, c: int): (m: int)
    ensures m >= a && m >= b && m >= c && (m == a || m == b || m == c)
  {
    if a >= b && a >= c then a else if b >= c then b else c
  }

  /**
   * The octile step count of getDistance on the three axis deltas: with
   * them sorted as min <= mid <= max, a 3-axis diagonal step costs 17, a
   * 2-axis one 14 and a straight one 10.  The result lies between 10 and 17
   * times the largest delta and never exceeds ten times their sum.
   */
  function Octile(dx: nat, dy: nat, dz: nat): (d: nat)
    ensures 10 * Max3(dx, dy, dz) <= d <= 17 * Max3(dx, dy, dz)
    ensures d <= 10 * (dx + dy + dz)
  {
    var minD := Min3(dx, dy, dz);
    var maxD := Max3(dx, dy, dz);
    var midD := dx + dy + dz - minD - maxD;
    17 * minD + 14 * (midD - minD) + 10 * (maxD - midD)
  }

  /**
   * getDistance on two positions.  It is zero exactly between equal
   * positions and never exceeds ten times the Manhattan distance that
   * CalculateHCost uses.
   */
  function Distance(a: Pos, b: Pos): (d: nat)
    ensures d == 0 <==> a == b
    ensures d <= 10 * Manhattan(a, b)
  {
    var dx, dy, dz := Abs(a.x - b.x), Abs(a.y - b.y), Abs(a.z - b.z);
    var d := Octile(dx, dy, dz);
    assert Manhattan(a, b) == dx + dy + dz;
    assert d == 0 <==> dx + dy + dz == 0;
    d
  }

  lemma DistanceSymmetric(a: Pos, b: Pos)
    ensures Distance(a, b) == Distance(b, a)
  {
    assert Abs(a.x - b.x) == Abs(b.x - a.x);
    assert Abs(a.y - b.y) == Abs(b.y - a.y);
    assert Abs(a.z - b.z) == Abs(b.z - a.z);
  }

  /** Deltas (k, 0, 0), (k, k, 0) and (k, k, k) cost 10k, 14k and 17k. */
  lemma DistanceAxisCases(a: Pos, k: nat)
    ensures Distance(a, Pos(a.x + k, a.y, a.z)) == 10 * k
    ensures Distance(a, Pos(a.x + k, a.y + k, a.z)) == 14 * k
    ensures Distance(a, Pos(a.x + k, a.y + k, a.z + k)) == 17 * k
  {
  }

  /** getDistance: the distance between the two entities' transforms. */
  function GetDistance(a: Entity, b: Entity): (d: int)
    requires a.GetComponent(TRANSFORM) != null && b.GetComponent(TRANSFORM) != null
    reads a`components, b`components, a.GetComponent(TRANSFORM)`position, b.GetComponent(TRANSFORM)`position
    ensures d >= 0
    ensures d == 0 <==> a.Position() == b.Position()
  {
    Distance(a.Position(), b.Position())
  }

  // ------------------------------------------------------------ heap order

  /** CompareGameObjectX: `a` ranks below `b` in the max-heap, so the heap's top has the least FCost. */
  predicate CompareGameObjectX(a: Entity, b: Entity)
    reads a`gCost, a`hCost, b`gCost, b`hCost
  {
    a.FCost() > b.FCost()
  }

  /**
   * The comparator is a strict weak order, as std::priority_queue demands:
   * irreflexive, transitive, and equivalence (neither ranks below the other)
   * is transitive.
   */
  lemma CompareIsStrictWeakOrder(a: Entity, b: Entity, c: Entity)
    ensures !CompareGameObjectX(a, a)
    ensures CompareGameObjectX(a, b) && CompareGameObjectX(b, c) ==> CompareGameObjectX(a, c)
    ensures !CompareGameObjectX(a, b) && !CompareGameObjectX(b, a) && !CompareGameObjectX(b, c) && !CompareGameObjectX(c, b)
      ==> !CompareGameObjectX(a, c) && !CompareGameObjectX(c, a)
  {
  }

  /** `m` is a node of least FCost in `s`: one the heap's top() may return. */
  predicate IsLeast(m: Entity, s: set<Entity>)
    reads m`gCost, m`hCost, s`gCost, s`hCost
  {
    m in s && forall e :: e in s ==> !CompareGameObjectX(m, e)
  }

  /** Every finite non-empty set of nodes has a least one. */
  ghost function Least(s: set<Entity>): (m: Entity)
    requires s != {}
    reads s
    ensures IsLeast(m, s)
    decreases |s|
  {
    var x :| x in s;
    if s == {x} then
      assert forall e :: e in s ==> e == x;
      x
    else
      var m := Least(s - {x});
      assert forall e :: e in s ==> e == x || e in s - {x};
      if CompareGameObjectX(m, x) then x else m
  }

  // ------------------------------------------------------------ parent chains

  /**
   * Parent links among `nodes` lead down in `rank`: every node other than
   * `start` has a parent in `nodes` of smaller rank, so following parents
   * from any node reaches `start`.
   */
  ghost predicate ParentsRanked(start: Entity, nodes: set<Entity>, rank: map<Entity, nat>)
    reads nodes`parentNode
  {
    && (forall e :: e in nodes ==> e in rank)
    && (forall e {:trigger RankedLink(e, nodes, rank)} :: e in nodes && e != start ==> RankedLink(e, nodes, rank))
  }

  /** `e` has a parent in `parents`, ranked below it. */
  ghost predicate RankedLink(e: Entity, parents: set<Entity>, rank: map<Entity, nat>)
    reads e`parentNode
  {
    && e.parentNode != null && e.parentNode in parents
    && e in rank && e.parentNode in rank && rank[e.parentNode] < rank[e]
  }

  /**
   * `path` leads from `start` to `end` by parent links: it excludes start,
   * its first node's parent is start, every later node's parent is the node
   * before it, and it ends with `end` (so it is empty exactly when end is
   * start).
   */
  ghost predicate IsRetrace(path: seq<Entity>, start: Entity, end: Entity)
    reads path
  {
    && start !in path
    && (path == [] <==> end == start)
    && (path != [] ==> path[0].parentNode == start && path[|path| - 1] == end)
    && (forall i :: 0 < i < |path| ==> path[i].parentNode == path[i - 1])
  }

  /**
   * `order` is a possible pop order of findPath from `start`: it begins
   * with `start`, repeats no node, and every later node's parent comes
   * earlier.
   */
  ghost predicate PopOrder(order: seq<Entity>, start: Entity)
    reads order
  {
    && |order| > 0 && order[0] == start
    && (forall i, j :: 0 <= i < j < |order| ==> order[i] != order[j])
    && (forall i :: 0 < i < |order| ==> order[i].parentNode in order[..i])
  }

  /** `x` is the last node of `s`. */
  ghost predicate EndsWith(s: seq<Entity>, x: Entity)
  {
    |s| > 0 && s[|s| - 1] == x
  }

  /** The parent each node of `s` has now. */
  ghost function ParentsIn(s: set<Entity>): (m: map<Entity, Entity?>)
    reads s
    ensures forall e :: e in s ==> e in m && m[e] == e.parentNode
  {
    map e | e in s :: e.parentNode
  }

  /** PopOrder with the parents read from `parents` instead of the heap. */
  ghost predicate PopOrderIn(order: seq<Entity>, start: Entity, parents: map<Entity, Entity?>)
  {
    && |order| > 0 && order[0] == start
    && (forall i, j :: 0 <= i < j < |order| ==> order[i] != order[j])
    && (forall i :: 0 < i < |order| ==> order[i] in parents && parents[order[i]] in order[..i])
  }

  lemma SnapshotPopOrder(order: seq<Entity>, start: Entity, s: set<Entity>)
    requires PopOrder(order, start) && forall e :: e in order ==> e in s
    ensures PopOrderIn(order, start, ParentsIn(s))
  {
  }

  /**
   * Appending a node not yet listed whose parent is listed keeps a pop
   * order, when the listed nodes still have the parents `parents` recorded.
   */
  lemma PopOrderExtends(order: seq<Entity>, popped: Entity, start: Entity, listed: set<Entity>, parents: map<Entity, Entity?>)
    requires order == [] ==> popped == start
    requires order != [] ==> PopOrderIn(order, start, parents)
    requires forall e :: e in listed <==> e in order
    requires popped !in listed && (popped != start ==> popped.parentNode in listed)
    requires forall e :: e in listed ==> e in parents && e.parentNode == parents[e]
    ensures PopOrder(order + [popped], start)
  {
    var o := order + [popped];
    forall i | 0 < i < |o|
      ensures o[i].parentNode in o[..i]
    {
      if i < |order| {
        assert o[..i] == order[..i];
      } else {
        assert o[..i] == order;
      }
    }
  }

  function Reverse<T>(s: seq<T>): (r: seq<T>)
    ensures |r| == |s| && forall i :: 0 <= i < |s| ==> r[i] == s[|s| - 1 - i]
  {
    if s == [] then [] else Reverse(s[1..]) + [s[0]]
  }

  /**
   * retracePath: the parent walk from endObject back to startObject,
   * collected and reversed.  The walk ends because the ranks of the nodes
   * it visits go down.
   */
  method RetracePath(startObject: Entity, endObject: Entity, ghost nodes: set<Entity>, ghost rank: map<Entity, nat>)
    returns (path: seq<Entity>)
    requires ParentsRanked(startObject, nodes, rank) && endObject in nodes
    ensures IsRetrace(path, startObject, endObject)
    ensures forall e :: e in path ==> e in nodes
  {
    var walked: seq<Entity> := [];
    var current := endObject;
    while current != startObject
      invariant current in nodes && startObject !in walked
      invariant forall e :: e in walked ==> e in nodes
      invariant walked == [] ==> current == endObject
      invariant walked != [] ==> walked[0] == endObject && walked[|walked| - 1].parentNode == current
      invariant forall i :: 0 <= i < |walked| - 1 ==> walked[i].parentNode == walked[i + 1]
      decreases rank[current]
    {
      assert RankedLink(current, nodes, rank);
      walked := walked + [current];
      current := current.parentNode;
    }
    path := Reverse(walked);
  }

  // ------------------------------------------------------------ the search

  /** Closing one more node of the universe leaves fewer unclosed: the search's termination measure. */
  lemma UnseenShrinks<T>(u: set<T>, closed: set<T>, x: T)
    requires x in u && x !in closed
    ensures |u - (closed + {x})| < |u - closed|
  {
    assert u - closed == (u - (closed + {x})) + {x};
  }

  lemma AllPricedWith(s: set<Entity?>, e: Entity)
    requires AllPriced(s) && HasTransform(e)
    ensures AllPriced(s + {e})
  {
  }

  /** A node the search can price: it has a transform. */
  predicate HasTransform(e: Entity)
    reads e`components
  {
    e.GetComponent(TRANSFORM) != null
  }

  /** Every entity of `s` has a transform, so getDistance can price it. */
  ghost predicate AllPriced(s: set<Entity?>)
    reads s`components
  {
    forall e: Entity {:trigger HasTransform(e)} :: e in s ==> HasTransform(e)
  }

  /**
   * The node findPath pops with end's id is end itself, when no other node
   * of the grid shares that id.
   */
  lemma SameIdIsEnd(current: Entity, start: Entity, end: Entity, nodes: set<Entity?>)
    requires current in nodes + {start} && current.id == end.id
    requires forall e: Entity :: e in nodes && e.id == end.id ==> e == end
    requires start.id == end.id ==> start == end
    ensures current == end
  {
  }

  /** Popping x from a queue that holds each open node once keeps it holding each open node once. */
  lemma PopKeepsQueue<T>(queue: multiset<T>, open: set<T>, x: T)
    requires queue == multiset(open) && x in open
    ensures queue - multiset{x} == multiset(open - {x})
  {
    assert open == (open - {x}) + {x};
  }

  /** Pushing a node that is not yet open keeps the queue holding each open node once. */
  lemma PushKeepsQueue<T>(queue: multiset<T>, open: set<T>, x: T)
    requires queue == multiset(open) && x !in open
    ensures queue + multiset{x} == multiset(open + {x})
  {
  }

  /** The three fields findPath sets when it prices a node. */
  datatype Costs = Costs(g: int, h: int, parent: Entity?)

  ghost function CostsOf(e: Entity): Costs
    reads e`gCost, e`hCost, e`parentNode
  {
    Costs(e.gCost, e.hCost, e.parentNode)
  }

  method Price(n: Entity, g: int, h: int, parent: Entity)
    modifies n`gCost, n`hCost, n`parentNode
    ensures n.gCost == g && n.hCost == h && n.parentNode == parent
  {
    n.gCost := g;
    n.hCost := h;
    n.parentNode := parent;
  }

  class AstarAlgorithm {
    const entityData: PureEntityData
    /** The priority queue's contents; its order is CompareGameObjectX. */
    var openList: multiset<Entity>
    var openSet: set<Entity>
    var closedList: set<Entity>

    constructor (entityData: PureEntityData)
      ensures this.entityData == entityData
      ensures openList == multiset{} && openSet == {} && closedList == {}
    {
      this.entityData := entityData;
      openList, openSet, closedList := multiset{}, {}, {};
    }

    /**
     * containsInOpenList: a lookup in openSet, the set mirroring the heap;
     * while the two agree it answers whether `e` is queued in the heap.
     */
    predicate ContainsInOpenList(e: Entity): (b: bool)
      reads this`openSet, this`openList
      ensures openList == multiset(openSet) ==> (b <==> e in openList)
    {
      e in openSet
    }

    /**
     * The state findPath keeps between rounds: every open or closed node
     * belongs to `universe`; the queue holds each open node exactly once and
     * nothing else; no node is both open and closed; start has been queued;
     * and each open or closed node other than start has a closed parent of
     * smaller rank, so parent links lead back to start.
     */
    ghost predicate SearchState(start: Entity, universe: set<Entity?>, rank: map<Entity, nat>)
      reads this, openSet`parentNode, closedList`parentNode
    {
      && QueueState(start, universe, rank)
      && (forall e {:trigger RankedLink(e, closedList, rank)} :: e in openSet + closedList && e != start ==>
            RankedLink(e, closedList, rank))
    }

    /** The part of SearchState about the open and closed sets alone. */
    ghost predicate QueueState(start: Entity, universe: set<Entity?>, rank: map<Entity, nat>)
      reads this
    {
      && openSet + closedList <= universe
      && openList == multiset(openSet)
      && openSet !! closedList
      && start in openSet + closedList
      && (forall e :: e in openSet + closedList ==> e in rank)
    }

    /** findPath's initial state: start alone is open, nothing is closed. */
    lemma InitialSearchState(start: Entity, universe: set<Entity?>)
      requires openList == multiset{start} && openSet == {start} && closedList == {} && start in universe
      ensures SearchState(start, universe, map[start := 0])
    {
    }

    /** The parent links a search state keeps satisfy ParentsRanked over the closed nodes. */
    lemma SearchStateRanked(start: Entity, universe: set<Entity?>, rank: map<Entity, nat>)
      requires SearchState(start, universe, rank)
      ensures ParentsRanked(start, closedList, rank)
    {
      forall e | e in closedList && e != start
        ensures RankedLink(e, closedList, rank)
      {
        assert RankedLink(e, closedList, rank);
      }
    }

    /**
     * One pass of findPath's inner loop, for `neighbor` of the closed node
     * `current`: a neighbour that is neither closed nor open is priced and
     * queued.  The first operand of the source's test (a cost below
     * current's gCost) never holds, since distances are not negative.
     */
    method Relax(current: Entity, neighbor: Entity, start: Entity, end: Entity, ghost universe: set<Entity?>, ghost rank: map<Entity, nat>)
      returns (ghost rank': map<Entity, nat>)
      requires neighbor in universe && current in closedList
      requires HasTransform(current) && HasTransform(neighbor) && HasTransform(end)
      requires SearchState(start, universe, rank)
      modifies this`openList, this`openSet, neighbor`gCost, neighbor`hCost, neighbor`parentNode
      ensures SearchState(start, universe, rank')
      ensures old(neighbor !in openSet && neighbor !in closedList) ==>
        && openSet == old(openSet) + {neighbor}
        && neighbor.gCost == old(current.gCost + GetDistance(current, neighbor))
        && neighbor.hCost == old(GetDistance(neighbor, end))
        && neighbor.parentNode == current
      ensures old(neighbor in openSet || neighbor in closedList) ==>
        && openSet == old(openSet)
        && neighbor.gCost == old(neighbor.gCost) && neighbor.hCost == old(neighbor.hCost)
        && neighbor.parentNode == old(neighbor.parentNode)
    {
      rank' := rank;
      if neighbor in closedList {
        return;
      }
      var newMovementCostToNeighbor := current.gCost + GetDistance(current, neighbor);
      assert !(newMovementCostToNeighbor < current.gCost);
      if newMovementCostToNeighbor < current.gCost || !ContainsInOpenList(neighbor) {
        var h := GetDistance(neighbor, end);
        rank' := Open(current, neighbor, newMovementCostToNeighbor, h, start, universe, rank);
      }
    }

    /**
     * The body of the relaxation once a neighbour is chosen: it gets its
     * costs and `current` as parent, and is pushed when not yet open.
     */
    method Open(current: Entity, neighbor: Entity, g: int, h: int, start: Entity, ghost universe: set<Entity?>, ghost rank: map<Entity, nat>)
      returns (ghost rank': map<Entity, nat>)
      requires neighbor in universe && current in closedList && neighbor !in closedList && neighbor !in openSet
      requires SearchState(start, universe, rank)
      modifies this`openList, this`openSet, neighbor`gCost, neighbor`hCost, neighbor`parentNode
      ensures SearchState(start, universe, rank')
      ensures openSet == old(openSet) + {neighbor}
      ensures neighbor.gCost == g && neighbor.hCost == h && neighbor.parentNode == current
    {
      Price(neighbor, g, h, current);
      rank' := rank[neighbor := rank[current] + 1];
      if !ContainsInOpenList(neighbor) {
        PushKeepsQueue(openList, openSet, neighbor);
        openList := openList + multiset{neighbor};
        openSet := openSet + {neighbor};
      }
      forall e | e in openSet + closedList && e != start
        ensures RankedLink(e, closedList, rank')
      {
        if e != neighbor {
          assert old(RankedLink(e, closedList, rank));
        }
      }
    }

    /**
     * top() of the heap in findPath: a node of least FCost among the open
     * ones.  Which of several such nodes the heap gives is left open.
     */
    method Top(ghost start: Entity, ghost universe: set<Entity?>, ghost rank: map<Entity, nat>) returns (current: Entity)
      requires SearchState(start, universe, rank) && |openList| > 0 && AllPriced(universe)
      ensures current in openSet && IsLeast(current, openSet) && current in universe
    {
      ghost var least := Least(openSet);
      current :| current in openSet && IsLeast(current, openSet);
    }

    /** pop(), openSet.erase and closedList.insert for the node just taken from the top. */
    method Close(current: Entity, ghost start: Entity, ghost universe: set<Entity?>, ghost rank: map<Entity, nat>)
      requires SearchState(start, universe, rank) && current in openSet && AllPriced(universe)
      modifies this`openList, this`openSet, this`closedList
      ensures AllPriced(universe) && unchanged(entityData)
      ensures openList == old(openList) - multiset{current}
      ensures openSet == old(openSet) - {current} && closedList == old(closedList) + {current}
      ensures SearchState(start, universe, rank)
      ensures forall e :: e in old(openSet) || e in old(closedList) ==> CostsOf(e) == old(CostsOf(e))
    {
      PopKeepsQueue(openList, openSet, current);
      openList := openList - multiset{current};
      openSet := openSet - {current};
      closedList := closedList + {current};
      forall e | e in openSet + closedList && e != start
        ensures RankedLink(e, closedList, rank)
      {
        assert old(RankedLink(e, closedList, rank));
      }
    }

    /**
     * The inner loop of findPath: every neighbour of `current` returned by
     * getNeighbors is relaxed in turn.  Nodes already open or closed keep
     * their costs and parents, and afterwards every neighbour is open or
     * closed.
     */
    method ExpandNode(current: Entity, start: Entity, end: Entity, ghost nodes: set<Entity?>, ghost universe: set<Entity?>, ghost rank: map<Entity, nat>)
      returns (ghost rank': map<Entity, nat>)
      requires entityData.gridSize > 0
      requires entityData.gridNodes.Values == nodes && null !in nodes && nodes <= universe
      requires AllPriced(universe) && HasTransform(end)
      requires SearchState(start, universe, rank) && current in closedList
      modifies this`openList, this`openSet
      modifies nodes`gCost, nodes`hCost, nodes`parentNode
      ensures SearchState(start, universe, rank') && closedList == old(closedList) && AllPriced(universe)
      ensures old(openSet) <= openSet
      ensures forall e :: e in old(openSet) || e in closedList ==> CostsOf(e) == old(CostsOf(e))
      ensures forall id :: id in Neighbors(entityData.gridNodes.Keys, entityData.gridSize, current.id as int) ==>
        id in entityData.gridNodes && entityData.gridNodes[id] in openSet + closedList
    {
      rank' := rank;
      var neighbors := entityData.GetNeighbors(current);
      ghost var ids := Neighbors(entityData.gridNodes.Keys, entityData.gridSize, current.id as int);
      ghost var open0 := openSet;
      ghost var snap := map e | e in openSet + closedList :: CostsOf(e);
      forall j | 0 <= j < |neighbors|
        ensures neighbors[j] != null && neighbors[j] in nodes
      {
        assert neighbors[j] in entityData.gridNodes.Values;
      }
      rank' := RelaxAll(current, neighbors, start, end, nodes, universe, rank, open0, snap);
      forall id | id in ids
        ensures id in entityData.gridNodes && entityData.gridNodes[id] in openSet + closedList
      {
        var j :| 0 <= j < |ids| && ids[j] == id;
        assert neighbors[j] in openSet || neighbors[j] in closedList;
      }
      forall e | e in open0 || e in closedList
        ensures CostsOf(e) == old(CostsOf(e))
      {
        assert CostsOf(e) == snap[e];
      }
    }

    /**
     * The `for (Entity* neighbor : ...)` loop of findPath over the nodes
     * getNeighbors returned: each is relaxed in turn, keeping ExpandNode's
     * bookkeeping (see RelaxKeeping), and afterwards each is open or closed.
     */
    method RelaxAll(current: Entity, neighbors: seq<Entity?>, start: Entity, end: Entity, ghost nodes: set<Entity?>,
                    ghost universe: set<Entity?>, ghost rank: map<Entity, nat>, ghost open0: set<Entity>, ghost snap: map<Entity, Costs>)
      returns (ghost rank': map<Entity, nat>)
      requires forall j :: 0 <= j < |neighbors| ==> neighbors[j] != null && neighbors[j] in nodes
      requires nodes <= universe
      requires current in closedList && AllPriced(universe) && HasTransform(end)
      requires SearchState(start, universe, rank) && open0 <= openSet
      requires forall e :: e in open0 || e in closedList ==> e in snap && CostsOf(e) == snap[e]
      modifies this`openList, this`openSet, nodes`gCost, nodes`hCost, nodes`parentNode
      ensures SearchState(start, universe, rank') && open0 <= openSet
      ensures forall e :: e in open0 || e in closedList ==> e in snap && CostsOf(e) == snap[e]
      ensures forall j :: 0 <= j < |neighbors| ==> neighbors[j] in openSet || neighbors[j] in closedList
    {
      rank' := rank;
      for i := 0 to |neighbors|
        invariant SearchState(start, universe, rank') && open0 <= openSet
        invariant forall e :: e in open0 || e in closedList ==> e in snap && CostsOf(e) == snap[e]
        invariant forall j :: 0 <= j < i ==> neighbors[j] in openSet || neighbors[j] in closedList
      {
        ghost var before := openSet;
        assert HasTransform(current) && HasTransform(neighbors[i]);
        rank' := RelaxKeeping(current, neighbors[i], start, end, universe, rank', open0, snap);
        CoverageGrows(neighbors, i, before, openSet, closedList);
      }
    }

    /**
     * Relax, with ExpandNode's bookkeeping carried across it: every node
     * that was open before the expansion (`open0`) or is closed keeps the
     * costs and parent `snap` recorded for it, and the neighbour ends up
     * open or closed.
     */
    method RelaxKeeping(current: Entity, neighbor: Entity, start: Entity, end: Entity,
                        ghost universe: set<Entity?>, ghost rank: map<Entity, nat>, ghost open0: set<Entity>, ghost snap: map<Entity, Costs>)
      returns (ghost rank': map<Entity, nat>)
      requires neighbor in universe && current in closedList
      requires HasTransform(current) && HasTransform(neighbor) && HasTransform(end)
      requires SearchState(start, universe, rank) && open0 <= openSet
      requires forall e :: e in open0 || e in closedList ==> e in snap && CostsOf(e) == snap[e]
      modifies this`openList, this`openSet, neighbor`gCost, neighbor`hCost, neighbor`parentNode
      ensures SearchState(start, universe, rank') && open0 <= openSet
      ensures forall e :: e in open0 || e in closedList ==> e in snap && CostsOf(e) == snap[e]
      ensures old(openSet) <= openSet && (neighbor in openSet || neighbor in closedList)
    {
      ghost var known := neighbor in openSet || neighbor in closedList;
      rank' := Relax(current, neighbor, start, end, universe, rank);
      forall e | e in open0 || e in closedList
        ensures e in snap && CostsOf(e) == snap[e]
      {
        if e != neighbor || known {
          assert CostsOf(e) == old(CostsOf(e));
        }
      }
    }

    /** Neighbours 0..i-1 were open or closed, the open set only grew, and neighbour i is now open or closed. */
    static lemma CoverageGrows(neighbors: seq<Entity?>, i: nat, before: set<Entity>, after: set<Entity>, closed: set<Entity>)
      requires i < |neighbors| && before <= after && (neighbors[i] in after || neighbors[i] in closed)
      requires forall j :: 0 <= j < i ==> neighbors[j] in before || neighbors[j] in closed
      ensures forall j :: 0 <= j <= i ==> neighbors[j] in after || neighbors[j] in closed
    {
    }

    /**
     * One round of findPath's loop: pop and close a node of least FCost;
     * unless it has end's id, relax each of its neighbours.
     */
    method Round(start: Entity, end: Entity, ghost nodes: set<Entity?>, ghost universe: set<Entity?>, ghost rank: map<Entity, nat>)
      returns (current: Entity, found: bool, ghost rank': map<Entity, nat>)
      requires entityData.gridSize > 0
      requires entityData.gridNodes.Values == nodes && null !in nodes && universe == nodes + {start}
      requires AllPriced(universe) && HasTransform(end)
      requires forall e: Entity :: e in nodes && e.id == end.id ==> e == end
      requires start.id == end.id ==> start == end
      requires SearchState(start, universe, rank) && |openList| > 0
      modifies this`openList, this`openSet, this`closedList
      modifies nodes`gCost, nodes`hCost, nodes`parentNode
      ensures SearchState(start, universe, rank') && AllPriced(universe)
      ensures current in old(openSet) && current in universe && current !in old(closedList)
      ensures IsLeast(current, old(openSet))
      ensures closedList == old(closedList) + {current} && old(openSet) - {current} <= openSet
      ensures forall e :: e in old(openSet) || e in old(closedList) ==>
        e.gCost == old(e.gCost) && e.hCost == old(e.hCost) && e.parentNode == old(e.parentNode)
      ensures current != start ==> current.parentNode in old(closedList)
      ensures found <==> current == end
      ensures !found ==> forall id :: id in Neighbors(entityData.gridNodes.Keys, entityData.gridSize, current.id as int) ==>
        id in entityData.gridNodes && entityData.gridNodes[id] in openSet + closedList
    {
      current, found := Pop(start, end, nodes, universe, rank);
      rank' := rank;
      if found {
        return;
      }
      ghost var open1 := openSet;
      label popped:
      rank' := ExpandNode(current, start, end, nodes, universe, rank);
      forall e | e in old(openSet) || e in old(closedList)
        ensures e.gCost == old(e.gCost) && e.hCost == old(e.hCost) && e.parentNode == old(e.parentNode)
      {
        assert e in open1 || e in closedList;
        assert CostsOf(e) == old@popped(CostsOf(e));
        assert old@popped(CostsOf(e)) == old(CostsOf(e));
      }
    }

    /**
     * The head of a round: top(), pop() and the move from open to closed,
     * then the comparison of the popped node's id with end's.
     */
    method Pop(start: Entity, end: Entity, ghost nodes: set<Entity?>, ghost universe: set<Entity?>, ghost rank: map<Entity, nat>)
      returns (current: Entity, found: bool)
      requires null !in nodes && universe == nodes + {start}
      requires AllPriced(universe)
      requires forall e: Entity :: e in nodes && e.id == end.id ==> e == end
      requires start.id == end.id ==> start == end
      requires SearchState(start, universe, rank) && |openList| > 0
      modifies this`openList, this`openSet, this`closedList
      ensures SearchState(start, universe, rank) && AllPriced(universe)
      ensures current in old(openSet) && current in universe && current !in old(closedList)
      ensures IsLeast(current, old(openSet))
      ensures openSet == old(openSet) - {current} && closedList == old(closedList) + {current}
      ensures forall e :: e in old(openSet) || e in old(closedList) ==> CostsOf(e) == old(CostsOf(e))
      ensures current != start ==> current.parentNode in old(closedList)
      ensures found <==> current == end
    {
      current := Top(start, universe, rank);
      Close(current, start, universe, rank);
      assert current != start ==> RankedLink(current, closedList, rank);
      found := current.id == end.id;
      if found {
        SameIdIsEnd(current, start, end, nodes);
      }
    }

    /**
     * What findPath's rounds take for granted about the grid: `nodes` are
     * the grid's nodes, `end` is the only one with end's id and has a
     * transform.
     */
    ghost predicate SearchGrid(start: Entity, end: Entity, nodes: set<Entity?>)
      reads entityData, end`components
    {
      && entityData.gridSize > 0
      && entityData.gridNodes.Values == nodes && null !in nodes
      && HasTransform(end)
      && (forall e: Entity :: e in nodes && e.id == end.id ==> e == end)
      && (start.id == end.id ==> start == end)
    }

    /**
     * Every id getNeighbors lists for `c` is a key of gridNodes whose node
     * lies in `known`.
     */
    ghost predicate Covered(c: Entity, known: set<Entity?>)
      reads entityData
    {
      && entityData.gridSize > 0
      && forall id :: id in Neighbors(entityData.gridNodes.Keys, entityData.gridSize, c.id as int) ==>
           id in entityData.gridNodes && entityData.gridNodes[id] in known
    }

    /** Every closed node other than end has had its neighbours opened or closed. */
    ghost predicate Explored(end: Entity)
      reads this, entityData
    {
      forall c :: c in closedList && c != end ==> Covered(c, openSet + closedList)
    }

    /** `b` is one of the nodes getNeighbors returns for `a`. */
    ghost predicate GridStep(a: Entity, b: Entity)
      reads entityData
    {
      && entityData.gridSize > 0
      && exists id :: id in Neighbors(entityData.gridNodes.Keys, entityData.gridSize, a.id as int)
           && id in entityData.gridNodes && entityData.gridNodes[id] == b
    }

    /** `p` walks the navigation grid, each node a neighbour of the one before. */
    ghost predicate GridPath(p: seq<Entity>)
      reads entityData
    {
      forall i :: 0 <= i < |p| - 1 ==> GridStep(p[i], p[i + 1])
    }

    /** A walk that starts in a set closed under neighbours never leaves it. */
    lemma {:induction false} WalkStaysIn(p: seq<Entity>, closed: set<Entity>, i: nat)
      requires i < |p| && p[0] in closed && GridPath(p)
      requires forall c :: c in closed ==> Covered(c, closed)
      ensures p[i] in closed
    {
      if i > 0 {
        WalkStaysIn(p, closed, i - 1);
        assert GridStep(p[i - 1], p[i]);
        var id :| id in Neighbors(entityData.gridNodes.Keys, entityData.gridSize, p[i - 1].id as int)
          && id in entityData.gridNodes && entityData.gridNodes[id] == p[i];
        assert Covered(p[i - 1], closed);
      }
    }

    /**
     * When the closed set is closed under neighbours and holds `start` but
     * not `end`, no walk over the grid leads from start to end.
     */
    lemma ClosedSetSeparates(start: Entity, end: Entity, closed: set<Entity>)
      requires start in closed && end !in closed
      requires forall c :: c in closed ==> Covered(c, closed)
      ensures forall p: seq<Entity> :: |p| > 0 && p[0] == start && GridPath(p) ==> p[|p| - 1] != end
    {
      forall p: seq<Entity> | |p| > 0 && p[0] == start && GridPath(p)
        ensures p[|p| - 1] != end
      {
        WalkStaysIn(p, closed, |p| - 1);
      }
    }

    /**
     * Explored after a round that closed `current`: the nodes closed before
     * kept their neighbours open or closed, and `current`'s neighbours were
     * opened unless it is end.
     */
    lemma ExploredAfter(end: Entity, current: Entity, found: bool, open0: set<Entity>, closed0: set<Entity>)
      requires forall c :: c in closed0 && c != end ==> Covered(c, open0 + closed0)
      requires closedList == closed0 + {current} && open0 - {current} <= openSet
      requires found <==> current == end
      requires !found ==> Covered(current, openSet + closedList)
      ensures Explored(end)
    {
      forall c | c in closedList && c != end
        ensures Covered(c, openSet + closedList)
      {
        if c != current {
          assert Covered(c, open0 + closed0);
          assert open0 + closed0 <= openSet + closedList;
        }
      }
    }

    /**
     * The state findPath's loop keeps: a search state; `order` lists the
     * closed nodes as a pop order from `start` ending with `last`, the
     * node popped most recently (nothing is listed before the first round); `found`
     * says whether end has been closed, and then it was the last one.
     */
    ghost predicate Searched(start: Entity, end: Entity, universe: set<Entity?>, rank: map<Entity, nat>,
                             order: seq<Entity>, last: Entity, found: bool)
      reads this, openSet`parentNode, closedList`parentNode, universe`components, order
    {
      && SearchState(start, universe, rank) && AllPriced(universe)
      && (order == [] ==> !found && openSet == {start} && closedList == {})
      && (order != [] ==> last in closedList && PopOrder(order, start) && order[|order| - 1] == last)
      && (found <==> end in closedList)
      && (found ==> last == end)
      && (forall e :: e in closedList ==> e in order)
      && (forall e :: e in order ==> e in closedList)
    }

    /**
     * A round of findPath with the pop order recorded: the node popped is
     * appended to `order`, which keeps listing the closed nodes as a pop
     * order from `start`.
     */
    method OrderedRound(start: Entity, end: Entity, ghost nodes: set<Entity?>, ghost universe: set<Entity?>,
                        ghost rank: map<Entity, nat>, ghost order: seq<Entity>, ghost last: Entity)
      returns (current: Entity, found: bool, ghost rank': map<Entity, nat>, ghost order': seq<Entity>)
      requires SearchGrid(start, end, nodes) && universe == nodes + {start}
      requires Searched(start, end, universe, rank, order, last, false) && |openList| > 0
      requires Explored(end)
      modifies this`openList, this`openSet, this`closedList
      modifies nodes`gCost, nodes`hCost, nodes`parentNode
      ensures Searched(start, end, universe, rank', order', current, found) && SearchGrid(start, end, nodes)
      ensures current in universe && current !in old(closedList) && closedList == old(closedList) + {current}
      ensures IsLeast(current, old(openSet))
      ensures Explored(end)
    {
      ghost var closed0 := closedList;
      ghost var open0 := openSet;
      ghost var parents := ParentsIn(closedList);
      if order != [] {
        SnapshotPopOrder(order, start, closedList);
      }
      current, found, rank' := Round(start, end, nodes, universe, rank);
      order' := order + [current];
      SearchedAfter(start, end, universe, rank', order, current, found, closed0, parents);
      ExploredAfter(end, current, found, open0, closed0);
    }

    /** Searched after a round that closed `current`, from the facts the round establishes. */
    lemma SearchedAfter(start: Entity, end: Entity, universe: set<Entity?>, rank: map<Entity, nat>,
                        order: seq<Entity>, current: Entity, found: bool, closed0: set<Entity>, parents: map<Entity, Entity?>)
      requires SearchState(start, universe, rank) && AllPriced(universe)
      requires closedList == closed0 + {current} && current !in closed0
      requires order == [] ==> current == start
      requires order != [] ==> PopOrderIn(order, start, parents)
      requires forall e :: e in closed0 <==> e in order
      requires current != start ==> current.parentNode in closed0
      requires forall e :: e in closed0 ==> e in parents && e.parentNode == parents[e]
      requires (found <==> current == end) && end !in closed0
      ensures Searched(start, end, universe, rank, order + [current], current, found)
    {
      PopOrderExtends(order, current, start, closed0, parents);
    }

    /**
     * findPath from `start` to `end`.  Each round pops a node of least
     * FCost and closes it; the search succeeds when that node has end's id.
     * `order` lists the closed nodes in the order they were popped: it
     * starts with `start`, has no repeats, and each later node's parent was
     * closed before it.  The result retraces parent links to end, or, when
     * the open heap runs dry, to the last node popped; in that case every
     * closed node had its neighbours explored, so end cannot be reached
     * from start over the grid.
     */
    method FindPath(start: Entity, end: Entity, ghost nodes: set<Entity?>) returns (path: seq<Entity>, ghost order: seq<Entity>)
      requires entityData.gridSize > 0
      requires entityData.gridNodes.Values == nodes && null !in nodes
      requires HasTransform(start) && HasTransform(end) && AllPriced(nodes)
      requires forall e: Entity :: e in nodes && e.id == end.id ==> e == end
      requires start.id == end.id ==> start == end
      modifies this`openList, this`openSet, this`closedList
      modifies nodes`gCost, nodes`hCost, nodes`parentNode
      ensures openList == multiset(openSet)
      ensures openSet !! closedList && start in closedList
      ensures end in closedList || openSet == {}
      ensures forall e :: e in path ==> e in closedList
      ensures start == end ==> path == []
      ensures PopOrder(order, start)
      ensures forall e :: e in closedList <==> e in order
      ensures IsRetrace(path, start, if end in closedList then end else order[|order| - 1])
      ensures end !in closedList ==> forall c :: c in closedList ==> Covered(c, closedList)
      ensures end !in closedList ==> forall p: seq<Entity> :: |p| > 0 && p[0] == start && GridPath(p) ==> p[|p| - 1] != end
    {
      openList, openSet, closedList := multiset{start}, {start}, {};
      InitialSearchState(start, nodes + {start});
      AllPricedWith(nodes, start);
      var current: Entity;
      ghost var rank: map<Entity, nat>;
      current, rank, order := Search(start, end, nodes);
      SearchStateRanked(start, nodes + {start}, rank);
      path := RetracePath(start, current, closedList, rank);
      if end !in closedList {
        ClosedSetSeparates(start, end, closedList);
      }
    }

    /**
     * The while loop of findPath: rounds run until a node with end's id is
     * popped or the open heap is empty.  `current` is the last node popped.
     */
    method Search(start: Entity, end: Entity, ghost nodes: set<Entity?>)
      returns (current: Entity, ghost rank: map<Entity, nat>, ghost order: seq<Entity>)
      requires SearchGrid(start, end, nodes) && AllPriced(nodes + {start})
      requires openList == multiset{start} && openSet == {start} && closedList == {}
      requires SearchState(start, nodes + {start}, map[start := 0])
      modifies this`openList, this`openSet, this`closedList
      modifies nodes`gCost, nodes`hCost, nodes`parentNode
      ensures SearchState(start, nodes + {start}, rank)
      ensures current in closedList && (end in closedList ==> current == end)
      ensures end in closedList || openSet == {}
      ensures PopOrder(order, start) && EndsWith(order, current)
      ensures forall e :: e in closedList <==> e in order
      ensures end !in closedList ==> forall c :: c in closedList ==> Covered(c, closedList)
    {
      ghost var universe: set<Entity?> := nodes + {start};
      rank := map[start := 0];
      current := start;
      order := [];
      var found := false;
      SearchStarts(start, end, universe);
      while !found && |openList| > 0
        invariant SearchGrid(start, end, nodes)
        invariant Searched(start, end, universe, rank, order, current, found)
        invariant Explored(end)
        decreases |universe - closedList|
      {
        ghost var closed0 := closedList;
        var popped: Entity;
        popped, found, rank, order := OrderedRound(start, end, nodes, universe, rank, order, current);
        current := popped;
        UnseenShrinks(universe, closed0, popped);
      }
      SearchEnds(start, end, universe, rank, order, current, found);
      if end !in closedList {
        assert openSet + closedList == closedList;
      }
    }

    /** Before the first round: start alone is open and nothing has been popped. */
    lemma SearchStarts(start: Entity, end: Entity, universe: set<Entity?>)
      requires openSet == {start} && closedList == {}
      requires SearchState(start, universe, map[start := 0]) && AllPriced(universe)
      ensures Searched(start, end, universe, map[start := 0], [], start, false)
    {
    }

    /**
     * When the loop stops, end has been popped or the open set is empty,
     * and at least one node has been popped.
     */
    lemma SearchEnds(start: Entity, end: Entity, universe: set<Entity?>, rank: map<Entity, nat>,
                     order: seq<Entity>, last: Entity, found: bool)
      requires Searched(start, end, universe, rank, order, last, found) && (found || |openList| == 0)
      ensures SearchState(start, universe, rank)
      ensures last in closedList && (end in closedList ==> last == end)
      ensures end in closedList || openSet == {}
      ensures PopOrder(order, start) && EndsWith(order, last)
      ensures forall e :: e in closedList <==> e in order
    {
    }
  }
}
