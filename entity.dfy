/**
 * Entity of entity.h (with EntityType of entityType.h): an id, a type, the
 * list of attached components and the per-entity state used by the A*
 * search and the enemy AI.
 */
module Entities {
  import opened Wrappers
  import opened ComponentTypes
  import opened ChunkAllocation
  import opened Components

  datatype EntityType = Unknown | SpaceShip | EnemyShip | Asteroid | Node


  /** Sum of the per-axis distances between two lattice positions. */
  function Manhattan(a: Pos, b: Pos): (d: nat)
    ensures d == 0 <==> a == b
  {
    Abs(a.x - b.x) + Abs(a.y - b.y) + Abs(a.z - b.z)
  }

  class Entity {
    const id: uint32
    const eType: EntityType
    /** Slot of the entity in the entity allocator. */
    const addr: Ptr
    var components: seq<ComponentBase>

    // A* and AI state
    var parentNode: Entity?
    var path: seq<Entity>
    var gCost: int
    var hCost: int
    var pathIndex: int
    var nodeArrivalTimer: real
    var hasReachedTheStartNode: bool
    var closestNodeCalled: bool
    var isAvoidingAsteroids: bool

    /** The AI state every entity starts with (the member initialisers). */
    ghost predicate AiDefaults()
      reads this`parentNode, this`path, this`gCost, this`hCost, this`pathIndex
      reads this`nodeArrivalTimer, this`hasReachedTheStartNode, this`closestNodeCalled, this`isAvoidingAsteroids
    {
      && parentNode == null && path == [] && gCost == 0 && hCost == 0
      && pathIndex == 0 && nodeArrivalTimer == 0.0
      && !hasReachedTheStartNode && !closestNodeCalled && !isAvoidingAsteroids
    }

    /** Entity(uint32_t): the given id, type Unknown, no components. */
    constructor (entityID: uint32, addr: Ptr)
      ensures id == entityID && eType == Unknown && this.addr == addr
      ensures components == [] && AiDefaults()
    {
      id, eType, this.addr := entityID, Unknown, addr;
      components := [];
      parentNode, path, gCost, hCost := null, [], 0, 0;
      pathIndex, nodeArrivalTimer := 0, 0.0;
      hasReachedTheStartNode, closestNodeCalled, isAvoidingAsteroids := false, false, false;
    }

    /**
     * A default-constructed entity in its allocator slot, after createEntity
     * has assigned its type and id.
     */
    constructor Allocated(eType: EntityType, entityID: uint32, addr: Ptr)
      ensures id == entityID && this.eType == eType && this.addr == addr
      ensures components == [] && AiDefaults()
    {
      id, this.eType, this.addr := entityID, eType, addr;
      components := [];
      parentNode, path, gCost, hCost := null, [], 0, 0;
      pathIndex, nodeArrivalTimer := 0, 0.0;
      hasReachedTheStartNode, closestNodeCalled, isAvoidingAsteroids := false, false, false;
    }

    /**
     * The A* total estimate: cost from the start plus the heuristic to the
     * goal; with a non-negative heuristic it never undercuts the cost so far.
     */
    function FCost(): (f: int)
      reads this`gCost, this`hCost
      ensures f == gCost + hCost
      ensures hCost >= 0 ==> f >= gCost
    {
      gCost + hCost
    }

    /** GetComponent<T>: the first attached component of class `t`, nullptr when none is attached. */
    function GetComponent(t: ComponentType): (r: ComponentBase?)
      reads this`components
      ensures r == null <==> forall c :: c in components ==> c.kind != t
      ensures r != null ==> r.kind == t && exists k :: 0 <= k < |components| && components[k] == r && forall j :: 0 <= j < k ==> components[j].kind != t
    {
      var k := FirstOfKind(components, t);
      if k < |components| then components[k] else null
    }

    /**
     * HasComponent consults only the first attached component (its loop
     * returns on the first iteration); with no component attached the source
     * has no return value, so the model requires one.
     */
    function HasComponent(t: ComponentType): (b: bool)
      requires |components| > 0
      reads this`components, components`componentMask
      ensures t == NONE ==> !b
      ensures b <==> Tests(components[0].componentMask, t)
    {
      NoneNeverTests(components[0].componentMask);
      Tests(components[0].componentMask, t)
    }

    /** The translation of the entity's transform (its first TRANSFORM component). */
    function Position(): Pos
      requires GetComponent(TRANSFORM) != null
      reads this`components, GetComponent(TRANSFORM)`position
    {
      GetComponent(TRANSFORM).position
    }

    /** Ten times the Manhattan distance from the transform's position to `goal`. */
    function CalculateHCost(goal: Pos): (h: int)
      requires GetComponent(TRANSFORM) != null
      reads this`components, GetComponent(TRANSFORM)`position
      ensures h >= 0 && h % 10 == 0
      ensures h == 0 <==> GetComponent(TRANSFORM).position == goal
      ensures h == 10 * Manhattan(GetComponent(TRANSFORM).position, goal)
    {
      var p := GetComponent(TRANSFORM).position;
      (Abs(p.x - goal.x) + Abs(p.y - goal.y) + Abs(p.z - goal.z)) * 10
    }

    /**
     * AddComponent: the component's owner becomes this entity, its mask gains
     * the bit of `kind`, and it is appended to the list (no duplicate check).
     */
    method AddComponent(component: ComponentBase, kind: ComponentType, eType: EntityType)
      modifies this`components, component`ownerId, component`componentMask
      ensures components == old(components) + [component]
      ensures component.GetOwner() == id
      ensures component.componentMask == old(component.componentMask) | Value(kind)
    {
      var mask := component.componentMask;
      component.SetOwner(id);
      component.componentMask := mask | Value(kind);
      components := components + [component];
    }

    /**
     * RemoveComponent: the first component whose mask tests positive for
     * `kind` loses that bit and is erased from the list, the others keep
     * their order; when no mask tests positive nothing changes.
     */
    method RemoveComponent(kind: ComponentType)
      modifies this`components, components`componentMask
      ensures var k := FirstTesting(old(Masks(components)), kind);
        && (k == |old(components)| ==> components == old(components))
        && (k < |old(components)| ==>
              && components == old(components[..k] + components[k + 1..])
              && old(components[k]).componentMask == old(components[k].componentMask) & !Value(kind))
        && (forall c :: c in old(components) && (k == |old(components)| || c != old(components[k])) ==>
              c.componentMask == old(c.componentMask))
    {
      ghost var ms := Masks(components);
      ghost var k := FirstTesting(ms, kind);
      var i := 0;
      while i < |components| && !Tests(components[i].componentMask, kind)
        invariant 0 <= i <= |components| && i <= k
        modifies {}
      {
        assert ms[i] == components[i].componentMask;
        i := i + 1;
      }
      assert i < |components| ==> ms[i] == components[i].componentMask;
      assert i == k;
      if i < |components| {
        var component := components[i];
        component.componentMask := component.componentMask & !Value(kind);
        components := components[..i] + components[i + 1..];
      }
    }
  }
}
