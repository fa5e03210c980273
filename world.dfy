/**
 * World of world.h: the eleven chunk allocators, the entity registry kept
 * in PureEntityData, and the operations that create, look up, respawn and
 * destroy entities, plus the node queries and the path bookkeeping the
 * enemy AI runs every frame.
 */
module EntityWorld {
  import opened Wrappers
  import opened ComponentTypes
  import opened ChunkAllocation
  import opened Components
  import opened Entities
  import opened EntityData
  import opened WorldPools
  import opened ShipPath

  const AllPools: set<Pool> := {
    EntityPool, TransformPool, RenderablePool, CameraPool, ColliderPool, RigidBodyPool,
    InputPool, AiControllerPool, ParticleEmitterPool, ParticlePool, NavNodePool}

  /** The component classes each creator attaches, in the order it attaches them. */
  const PlayerShipKinds: seq<ComponentType> := [TRANSFORM, RENDERABLE, COLLIDER, CAMERA, INPUT, PARTICLE_EMITTER]
  const EnemyShipKinds: seq<ComponentType> := [TRANSFORM, RENDERABLE, COLLIDER, AI_CONTROLLER, CAMERA, PARTICLE_EMITTER]
  const AsteroidKinds: seq<ComponentType> := [TRANSFORM, RENDERABLE, COLLIDER]
  const PathNodeKinds: seq<ComponentType> := [TRANSFORM, NAVNODE]

  // ------------------------------------------------------------- registry

  /** The number of entities of type `t` in `es`: the count createEntity takes as the new id. */
  function TypeCount(es: seq<Entity>, t: EntityType): (n: nat)
    ensures n <= |es|
  {
    if es == [] then 0
    else TypeCount(es[..|es| - 1], t) + (if es[|es| - 1].eType == t then 1 else 0)
  }

  /** No entity of type `t` exactly when the count is zero. */
  lemma {:induction false} TypeCountZero(es: seq<Entity>, t: EntityType)
    ensures TypeCount(es, t) == 0 <==> forall e :: e in es ==> e.eType != t
  {
    if es != [] {
      var init, last := es[..|es| - 1], es[|es| - 1];
      TypeCountZero(init, t);
      assert es == init + [last];
      if TypeCount(es, t) == 0 {
        forall e | e in es
          ensures e.eType != t
        {
          if e != last {
            assert e in init;
          }
        }
      } else if last.eType != t {
        var e :| e in init && e.eType == t;
        assert e in es;
      } else {
        assert last in es;
      }
    }
  }

  /** Only entities of type `t` exactly when the count is |es|. */
  lemma {:induction false} TypeCountAll(es: seq<Entity>, t: EntityType)
    ensures TypeCount(es, t) == |es| <==> forall e :: e in es ==> e.eType == t
  {
    if es != [] {
      var init, last := es[..|es| - 1], es[|es| - 1];
      TypeCountAll(init, t);
      assert es == init + [last];
      if TypeCount(es, t) == |es| {
        forall e | e in es
          ensures e.eType == t
        {
          if e != last {
            assert e in init;
          }
        }
      } else if last.eType == t {
        var e :| e in init && e.eType != t;
        assert e in es;
      } else {
        assert last in es;
      }
    }
  }

  /** The find_if of DestroyEntity: the first entity with this id and type, |es| when there is none. */
  function FirstMatch(es: seq<Entity>, id: uint32, t: EntityType): (k: nat)
    ensures k <= |es|
    ensures k < |es| ==> es[k].id == id && es[k].eType == t
    ensures forall j :: 0 <= j < k ==> es[j].id != id || es[j].eType != t
  {
    if es == [] then 0
    else if es[0].id == id && es[0].eType == t then 0
    else 1 + FirstMatch(es[1..], id, t)
  }

  /** The find_if of GetEntity: the first entity with this id, whatever its type. */
  function FirstWithId(es: seq<Entity>, id: uint32): (k: nat)
    ensures k <= |es|
    ensures k < |es| ==> es[k].id == id
    ensures forall j :: 0 <= j < k ==> es[j].id != id
  {
    if es == [] then 0
    else if es[0].id == id then 0
    else 1 + FirstWithId(es[1..], id)
  }

  /** No two registered entities share both a type and an id. */
  ghost predicate UniqueKeys(es: seq<Entity>)
  {
    forall i, j :: 0 <= i < j < |es| && es[i].eType == es[j].eType ==> es[i].id != es[j].id
  }

  /** Every entity's id is the number of entities of its type registered before it. */
  ghost predicate SequentialIds(es: seq<Entity>)
  {
    forall i :: 0 <= i < |es| ==> es[i].id as int == TypeCount(es[..i], es[i].eType)
  }

  /** The count of a type never drops along the prefixes of a list, and rises past each entity of that type. */
  lemma {:induction false} TypeCountGrows(es: seq<Entity>, t: EntityType, i: nat, j: nat)
    requires i < j <= |es|
    ensures TypeCount(es[..i], t) + (if es[i].eType == t then 1 else 0) <= TypeCount(es[..j], t)
    decreases j
  {
    assert es[..j][..j - 1] == es[..j - 1];
    if j > i + 1 {
      TypeCountGrows(es, t, i, j - 1);
    } else {
      assert es[..j - 1] == es[..i];
    }
  }

  /** Sequential ids per type are unique per type. */
  lemma SequentialIdsAreUnique(es: seq<Entity>)
    requires SequentialIds(es)
    ensures UniqueKeys(es)
  {
    forall i, j | 0 <= i < j < |es| && es[i].eType == es[j].eType
      ensures es[i].id != es[j].id
    {
      TypeCountGrows(es, es[i].eType, i, j);
    }
  }

  /** Appending an entity whose id is the count of its type, as createEntity does, keeps the ids sequential. */
  lemma CreateKeepsSequential(es: seq<Entity>, e: Entity)
    requires SequentialIds(es) && e.id as int == TypeCount(es, e.eType)
    ensures SequentialIds(es + [e])
  {
    var s := es + [e];
    forall i | 0 <= i < |s|
      ensures s[i].id as int == TypeCount(s[..i], s[i].eType)
    {
      if i < |es| {
        assert s[..i] == es[..i] && s[i] == es[i];
      } else {
        assert s[..i] == es && s[i] == e;
      }
    }
  }

  /** With unique keys, the find_if of DestroyEntity finds exactly the entity whose key it is given. */
  lemma FirstMatchFindsIt(es: seq<Entity>, e: Entity)
    requires UniqueKeys(es) && e in es
    ensures FirstMatch(es, e.id, e.eType) < |es| && es[FirstMatch(es, e.id, e.eType)] == e
  {
    var i :| 0 <= i < |es| && es[i] == e;
    var k := FirstMatch(es, e.id, e.eType);
    assert k <= i;
  }

  /** vector::erase at index k: the others keep their order. */
  function Erase(es: seq<Entity>, k: nat): (r: seq<Entity>)
    requires k < |es|
    ensures |r| == |es| - 1
    ensures forall i :: 0 <= i < |r| ==> r[i] == es[if i < k then i else i + 1]
  {
    es[..k] + es[k + 1..]
  }

  /** Erasing before the last element commutes with appending. */
  lemma EraseAppend(es: seq<Entity>, k: nat, n: Entity)
    requires k < |es|
    ensures Erase(es + [n], k) == Erase(es, k) + [n]
  {
    var l, r := Erase(es + [n], k), Erase(es, k) + [n];
    assert |l| == |r|;
    forall i | 0 <= i < |l|
      ensures l[i] == r[i]
    {
    }
  }

  /**
   * A respawn appends the new ship first and then destroys by key: the
   * search still stops at the old ship, the old ship is gone, the new one
   * takes its key and the keys stay unique.
   */
  lemma RespawnReplacesOldShip(es: seq<Entity>, old_: Entity, n: Entity)
    requires UniqueKeys(es) && old_ in es && n != old_
    requires n.id == old_.id && n.eType == old_.eType
    ensures var k := FirstMatch(es, old_.id, old_.eType);
      && k < |es| && es[k] == old_
      && FirstMatch(es + [n], n.id, n.eType) == k
      && Erase(es + [n], k) == Erase(es, k) + [n]
      && UniqueKeys(Erase(es, k) + [n])
      && old_ !in Erase(es, k) + [n]
  {
    FirstMatchFindsIt(es, old_);
    var k := FirstMatch(es, old_.id, old_.eType);
    assert (es + [n])[k] == old_;
    EraseAppend(es, k, n);
    ReplaceKeepsKeysUnique(es, k, n);
    EraseRemovesIt(es, k);
  }

  /** Erasing the entity at k and appending one with its key keeps the keys unique. */
  lemma ReplaceKeepsKeysUnique(es: seq<Entity>, k: nat, n: Entity)
    requires UniqueKeys(es) && k < |es|
    requires n.id == es[k].id && n.eType == es[k].eType
    ensures UniqueKeys(Erase(es, k) + [n])
  {
    var rest := Erase(es, k) + [n];
    forall i, j | 0 <= i < j < |rest| && rest[i].eType == rest[j].eType
      ensures rest[i].id != rest[j].id
    {
      var i' := if i < k then i else i + 1;
      if j == |rest| - 1 {
        assert rest[i] == es[i'] && i' != k;
      } else {
        var j' := if j < k then j else j + 1;
        assert rest[i] == es[i'] && rest[j] == es[j'];
      }
    }
  }

  /** With unique keys, the erased entity occurs nowhere else in the list. */
  lemma EraseRemovesIt(es: seq<Entity>, k: nat)
    requires UniqueKeys(es) && k < |es|
    ensures es[k] !in Erase(es, k)
  {
    var rest := Erase(es, k);
    forall i | 0 <= i < |rest|
      ensures rest[i] != es[k]
    {
      var i' := if i < k then i else i + 1;
      assert rest[i] == es[i'] && i' != k;
    }
  }

  lemma AllPoolsListed()
    ensures forall p: Pool :: p in AllPools
  {
    forall p: Pool
      ensures p in AllPools
    {
      match p
      case EntityPool =>
      case TransformPool =>
      case RenderablePool =>
      case CameraPool =>
      case ColliderPool =>
      case RigidBodyPool =>
      case InputPool =>
      case AiControllerPool =>
      case ParticleEmitterPool =>
      case ParticlePool =>
      case NavNodePool =>
    }
  }

  /** The pools right after World(): every allocator empty, nothing live. */
  function EmptyPools(): (ms: Pools)
    ensures PoolsValid(ms)
    ensures forall p :: ms[p] == AllocModel([], 0)
    ensures forall r :: !LiveIn(ms, r)
  {
    AllPoolsListed();
    map p | p in AllPools :: AllocModel([], 0)
  }

  lemma SquareIsZeroOnlyAtZero(v: int)
    ensures v * v >= 0 && (v * v == 0 <==> v == 0)
  {
    if v > 0 {
      assert v * v >= v;
    } else if v < 0 {
      assert v * v == (-v) * (-v) >= -v;
    }
  }

  /** The node list and the id -> node map agree: the i-th node created is stored under key i. */
  ghost predicate NodesIndexed(nodes: seq<Entity>, grid: map<int, Entity?>)
  {
    forall i :: 0 <= i < |nodes| ==> i in grid && grid[i] == nodes[i]
  }

  /** The nodes are exactly the registry's entities of type Node, each stored under its creation index. */
  ghost predicate NodeRegistry(es: seq<Entity>, nodes: seq<Entity>, grid: map<int, Entity?>)
  {
    TypeCount(es, Node) == |nodes| && NodesIndexed(nodes, grid)
  }

  /**
   * CreatePathNode keeps the node registry: the new node's id is the number
   * of nodes so far, so it lands under the next key.
   */
  lemma PathNodeKeepsRegistry(es: seq<Entity>, nodes: seq<Entity>, grid: map<int, Entity?>, node: Entity)
    requires NodeRegistry(es, nodes, grid) && |nodes| < UINT32_LIMIT
    requires node.eType == Node && node.id as int == TypeCount(es, Node) % UINT32_LIMIT
    ensures NodeRegistry(es + [node], nodes + [node], grid[node.id as int := node])
  {
    assert node.id as int == |nodes|;
    assert (es + [node])[..|es|] == es;
  }

  /** The slots of `e` are distinct and all live: it has been created and not yet destroyed. */
  ghost predicate Held(e: EntityView, ms: Pools)
  {
    Distinct(EntityHoldings(e)) && forall r :: r in EntityHoldings(e) ==> LiveIn(ms, r)
  }

  /**
   * A respawn on the pools: the old ship `o` is held in `ms0`, its
   * replacement takes the slots `hs` of the allocations `ps`, then
   * DestroyEntity hands back what `o`'s chain releases.  That never throws; afterwards the
   * replacement's slots are live and the old ship's released ones are not
   * (its canons stay live).
   */
  lemma RespawnPools(ms0: Pools, ps: seq<Pool>, o: EntityView)
    requires PoolsValid(ms0) && Held(o, ms0)
    ensures var (ms1, hs) := AllocateAll(ms0, ps);
      var (ms2, r) := ReleaseAll(ms1, EntityReleases(o, false));
      && r == Pass
      && forall x :: LiveIn(ms2, x) <==> (LiveIn(ms0, x) || x in hs) && x !in EntityReleases(o, false)
  {
    AllocateAllGrows(ms0, ps);
    var (ms1, hs) := AllocateAll(ms0, ps);
    DestroyAfterCreate(ms1, o, false);
  }

  // Sequence facts, stated apart so that the allocation proofs only use them.

  lemma NilAppend<T>(s: seq<T>)
    ensures [] + s == s && s + [] == s
  {
  }

  lemma AppendAssoc<T>(a: seq<T>, b: seq<T>, c: seq<T>)
    ensures a + b + c == a + (b + c)
  {
  }

  /** The allocation fold of a creator after one more component class: its slots follow the entity's earlier holdings. */
  lemma AttachFold(ms0: Pools, done: seq<ComponentType>, kind: ComponentType, v: EntityView, c: ComponentBase, p: Pools)
    requires (p, EntityHoldings(v) + Holdings(c)) == AllocateAll(ms0, [EntityPool] + KindPools(done) + SlotPools(kind))
    ensures (p, EntityHoldings(EntityView(v.addr, v.components + [c]))) == AllocateAll(ms0, [EntityPool] + KindPools(done + [kind]))
  {
    HoldingsAppend(v.addr, v.components, c);
    KindPoolsAppend(done, kind);
    AppendAssoc([EntityPool], KindPools(done), SlotPools(kind));
  }

  lemma Snoc4<T>(s: seq<T>, w: T, x: T, y: T, z: T)
    ensures s + [w] + [x] + [y] + [z] == s + [w, x, y, z]
  {
  }

  lemma TakeOneMore<T>(a: seq<T>, s: seq<T>, i: nat)
    requires i < |s|
    ensures a + s[..i + 1] == a + s[..i] + [s[i]]
  {
    assert s[..i + 1] == s[..i] + [s[i]];
  }

  lemma WholeAndEmptyPrefix<T>(a: seq<T>, s: seq<T>)
    ensures a + s[..0] == a && s[..|s|] == s
  {
    assert s[..0] == [];
  }

  lemma PrefixKept<T>(o: seq<T>, x: seq<T>, c: T)
    requires |o| <= |x| && x[..|o|] == o
    ensures |o| <= |x + [c]| && (x + [c])[..|o|] == o
  {
    assert (x + [c])[..|o|] == x[..|o|];
  }

  lemma PrefixHead<T>(o: seq<T>, x: seq<T>)
    requires 0 < |o| <= |x| && x[..|o|] == o
    ensures x[0] == o[0]
  {
    assert x[0] == x[..|o|][0];
  }

  lemma HeadTail<T>(s: seq<T>)
    requires |s| > 0
    ensures [s[0]] + s[1..] == s
  {
  }

  /** The squared distances from `p` to the transforms of the nodes `ns`, in order, as getclosestNodeFromAIship measures them. */
  function NodeDists(p: Pos, ns: seq<Entity>): (d: seq<nat>)
    requires forall i :: 0 <= i < |ns| ==> ns[i].GetComponent(TRANSFORM) != null
    reads set i | 0 <= i < |ns| :: ns[i], set i | 0 <= i < |ns| :: ns[i].GetComponent(TRANSFORM)
    ensures |d| == |ns| && forall i :: 0 <= i < |ns| ==> d[i] == SqDist(p, ns[i].Position())
  {
    if ns == [] then [] else NodeDists(p, ns[..|ns| - 1]) + [SqDist(p, ns[|ns| - 1].Position())]
  }

  /** Index k holds the first least value of d. */
  ghost predicate FirstLeast(d: seq<nat>, k: int)
  {
    0 <= k < |d| && (forall j :: 0 <= j < |d| ==> d[k] <= d[j]) && (forall j :: 0 <= j < k ==> d[j] > d[k])
  }

  /**
   * The components of `e` are of the classes `kinds`, in that order, each
   * owned by `e` and carrying its kind's bit.
   */
  ghost predicate Attached(e: Entity, kinds: seq<ComponentType>)
    reads e`components, e.components`ownerId, e.components`componentMask
  {
    && |e.components| == |kinds|
    && forall i :: 0 <= i < |kinds| ==>
         && e.components[i].kind == kinds[i]
         && e.components[i].ownerId == e.id
         && Tests(e.components[i].componentMask, kinds[i])
  }

  /** Squared distance between two lattice positions. */
  function SqDist(a: Pos, b: Pos): (d: nat)
    ensures d == 0 <==> a == b
  {
    SquareIsZeroOnlyAtZero(a.x - b.x);
    SquareIsZeroOnlyAtZero(a.y - b.y);
    SquareIsZeroOnlyAtZero(a.z - b.z);
    (a.x - b.x) * (a.x - b.x) + (a.y - b.y) * (a.y - b.y) + (a.z - b.z) * (a.z - b.z)
  }

  // ------------------------------------------------------------- the world

  class World {
    const entityChunk: ChunkAllocator
    const transformChunk: ChunkAllocator
    const renderableChunk: ChunkAllocator
    const cameraChunk: ChunkAllocator
    const colliderChunk: ChunkAllocator
    const rigidBodyChunk: ChunkAllocator
    const controlInputChunk: ChunkAllocator
    const aiControllerChunk: ChunkAllocator
    const particleEmitterChunk: ChunkAllocator
    const chunkOfParticles: ChunkAllocator
    const navNodeChunk: ChunkAllocator

    const pureEntityData: PureEntityData

    /** The id a respawned player ship or enemy ship takes over. */
    var savedID: uint32
    var savedEnemyID: uint32

    var randomIndex: int

    /** The allocator member behind each pool. */
    function Allocator(p: Pool): ChunkAllocator
    {
      match p
      case EntityPool => entityChunk
      case TransformPool => transformChunk
      case RenderablePool => renderableChunk
      case CameraPool => cameraChunk
      case ColliderPool => colliderChunk
      case RigidBodyPool => rigidBodyChunk
      case InputPool => controlInputChunk
      case AiControllerPool => aiControllerChunk
      case ParticleEmitterPool => particleEmitterChunk
      case ParticlePool => chunkOfParticles
      case NavNodePool => navNodeChunk
    }

    /** The ghost tag the constructor gives each pool's allocator. */
    static function PoolTag(p: Pool): nat
    {
      match p
      case EntityPool => 0
      case TransformPool => 1
      case RenderablePool => 2
      case CameraPool => 3
      case ColliderPool => 4
      case RigidBodyPool => 5
      case InputPool => 6
      case AiControllerPool => 7
      case ParticleEmitterPool => 8
      case ParticlePool => 9
      case NavNodePool => 10
    }

    /** Different pools have different tags. */
    static lemma PoolTagsDiffer(p: Pool, q: Pool)
      requires p != q
      ensures PoolTag(p) != PoolTag(q)
    {
    }

    /** The eleven allocators, as one frame. */
    ghost const allocators: set<ChunkAllocator>

    ghost function Allocators(): set<ChunkAllocator>
    {
      allocators
    }

    /** The state of every allocator, by pool. */
    ghost var pools: Pools

    /**
     * The allocators are eleven distinct objects (each carries its pool's
     * tag); `pools` holds the state of each, and each state is valid.
     */
    ghost predicate Valid()
      reads this`pools, Allocators()
    {
      && (forall p :: Allocator(p) in allocators && Allocator(p).tag == PoolTag(p))
      && (forall o: object :: o in allocators ==> o != this && o != pureEntityData && !(o is Entity))
      && PoolsValid(pools)
      && (forall p :: pools[p] == Allocator(p).Model())
    }

    /** World(): every allocator starts empty; the registry is the given PureEntityData. */
    constructor (data: PureEntityData)
      ensures Valid() && pureEntityData == data
      ensures savedID == 0 && savedEnemyID == 0
      ensures pools == EmptyPools()
    {
      var a0 := new ChunkAllocator(0);
      var a1 := new ChunkAllocator(1);
      var a2 := new ChunkAllocator(2);
      var a3 := new ChunkAllocator(3);
      var a4 := new ChunkAllocator(4);
      var a5 := new ChunkAllocator(5);
      var a6 := new ChunkAllocator(6);
      var a7 := new ChunkAllocator(7);
      var a8 := new ChunkAllocator(8);
      var a9 := new ChunkAllocator(9);
      var a10 := new ChunkAllocator(10);
      entityChunk, transformChunk, renderableChunk, cameraChunk, colliderChunk, rigidBodyChunk := a0, a1, a2, a3, a4, a5;
      controlInputChunk, aiControllerChunk, particleEmitterChunk, chunkOfParticles, navNodeChunk := a6, a7, a8, a9, a10;
      pureEntityData := data;
      allocators := {entityChunk, transformChunk, renderableChunk, cameraChunk, colliderChunk, rigidBodyChunk,
       controlInputChunk, aiControllerChunk, particleEmitterChunk, chunkOfParticles, navNodeChunk};
      savedID, savedEnemyID := 0, 0;
      var index: int :| true;
      randomIndex := index;
      pools := EmptyPools();
      new;
      forall p: Pool
        ensures Allocator(p) in allocators && Allocator(p).tag == PoolTag(p) && Allocator(p).Model() == AllocModel([], 0)
      {
        match p
        case EntityPool =>
        case TransformPool =>
        case RenderablePool =>
        case CameraPool =>
        case ColliderPool =>
        case RigidBodyPool =>
        case InputPool =>
        case AiControllerPool =>
        case ParticleEmitterPool =>
        case ParticlePool =>
        case NavNodePool =>
      }
    }

    /** `Allocate` on one pool's allocator; the other pools keep their state. */
    method AllocateIn(p: Pool) returns (ptr: Ptr)
      requires Valid()
      modifies this`pools, Allocator(p)
      ensures Valid()
      ensures pools == old(pools)[p := AllocateSpec(old(pools)[p]).0]
      ensures ptr == AllocateSpec(old(pools)[p]).1
    {
      ghost var ms := pools;
      assert PoolValid(ms, p);
      AllocateInPool(ms, p);
      ptr := Allocator(p).Allocate();
      pools := ms[p := Allocator(p).Model()];
      forall q
        ensures pools[q] == Allocator(q).Model()
      {
        if q != p {
          PoolTagsDiffer(q, p);
        }
      }
    }

    /** `Deallocate` on one pool's allocator; the other pools keep their state. */
    method ReleaseIn(p: Pool, ptr: Ptr) returns (r: Outcome)
      requires Valid()
      modifies this`pools, Allocator(p)
      ensures Valid()
      ensures (pools, r) == ReleaseAll(old(pools), [Release(p, ptr)])
    {
      ghost var ms := pools;
      assert PoolValid(ms, p);
      ReleaseOne(ms, p, ptr);
      r := Allocator(p).Deallocate(ptr);
      pools := ms[p := Allocator(p).Model()];
      PoolsValidUpdate(ms, p, Allocator(p).Model(), pools);
      forall q
        ensures pools[q] == Allocator(q).Model()
      {
        if q != p {
          PoolTagsDiffer(q, p);
        }
      }
    }
  
    /** The Deallocate calls of one branch of the dynamic_cast chain. */
    method ReleaseComponent(c: ComponentBase, withNav: bool) returns (r: Outcome)
      requires Valid()
      modifies this`pools, Allocators()
      ensures Valid()
      ensures (pools, r) == ReleaseAll(old(pools), ComponentReleases(c, withNav))
    {
      var pool := ReleasePool(c.kind, withNav);
      if pool.None? {
        return Pass;
      }
      if pool.value != ParticleEmitterPool {
        r := ReleaseIn(pool.value, c.addr);
        return;
      }
      assert ComponentReleases(c, withNav) ==
        [Release(ParticlePool, c.emitterLeft), Release(ParticlePool, c.emitterRight), Release(ParticleEmitterPool, c.addr)];
      r := ReleaseEmitter(c.emitterLeft, c.emitterRight, c.addr);
    }

    /** The particle-emitter branch: its left and right emitter particles, then the emitter itself. */
    method ReleaseEmitter(left: Ptr, right: Ptr, self: Ptr) returns (r: Outcome)
      requires Valid()
      modifies this`pools, Allocators()
      ensures Valid()
      ensures (pools, r) ==
        ReleaseAll(old(pools), [Release(ParticlePool, left), Release(ParticlePool, right), Release(ParticleEmitterPool, self)])
    {
      var rl, rest := Release(ParticlePool, left), [Release(ParticlePool, right), Release(ParticleEmitterPool, self)];
      ghost var ms0 := pools;
      r := ReleaseIn(ParticlePool, left);
      ReleaseSplitAt(ms0, [rl, rest[0], rest[1]], [rl], rest, (pools, r));
      if r.Pass? {
        r := ReleaseEmitterTail(right, self);
      }
    }

    /** The emitter branch after its left particle: the right particle, then, if that succeeds, the emitter. */
    method ReleaseEmitterTail(right: Ptr, self: Ptr) returns (r: Outcome)
      requires Valid()
      modifies this`pools, Allocators()
      ensures Valid()
      ensures (pools, r) == ReleaseAll(old(pools), [Release(ParticlePool, right), Release(ParticleEmitterPool, self)])
    {
      var rr, rs := Release(ParticlePool, right), Release(ParticleEmitterPool, self);
      ghost var ms0 := pools;
      r := ReleaseIn(ParticlePool, right);
      ReleaseSplitAt(ms0, [rr, rs], [rr], [rs], (pools, r));
      if r.Pass? {
        r := ReleaseIn(ParticleEmitterPool, self);
      }
    }

    /**
     * The body of DestroyEntity and of Cleanup for one entity: the chain for
     * each component in list order, then the entity's own slot; the first
     * Deallocate that throws ends it.
     */
    method ReleaseEntity(e: Entity, withNav: bool) returns (r: Outcome)
      requires Valid()
      modifies this`pools, Allocators()
      ensures Valid()
      ensures (pools, r) == ReleaseAll(old(pools), EntityReleases(old(ViewOf(e)), withNav))
    {
      ghost var ms0 := pools;
      ghost var v := ViewOf(e);
      var cs := e.components;
      var i := 0;
      r := Pass;
      while i < |cs| && r.Pass?
        invariant 0 <= i <= |cs| && Valid() && PoolsValid(ms0)
        invariant (pools, r) == ReleaseAll(ms0, ComponentsReleases(cs[..i], withNav))
      {
        r := ReleaseNext(cs, i, withNav, ms0);
        i := i + 1;
      }
      ReleaseEntityTail(ms0, v, withNav, i, (pools, r));
      if r.Pass? {
        r := ReleaseIn(EntityPool, e.addr);
      }
    }

    /** One more component of the list: the Deallocate calls so far extend by those of cs[i]. */
    method ReleaseNext(cs: seq<ComponentBase>, i: nat, withNav: bool, ghost ms0: Pools) returns (r: Outcome)
      requires Valid() && PoolsValid(ms0) && i < |cs|
      requires (pools, Pass) == ReleaseAll(ms0, ComponentsReleases(cs[..i], withNav))
      modifies this`pools, Allocators()
      ensures Valid()
      ensures (pools, r) == ReleaseAll(ms0, ComponentsReleases(cs[..i + 1], withNav))
    {
      ComponentsReleasesStep(cs, i, withNav);
      ReleaseSplitAt(ms0, ComponentsReleases(cs[..i + 1], withNav), ComponentsReleases(cs[..i], withNav), ComponentReleases(cs[i], withNav), (pools, Pass));
      r := ReleaseComponent(cs[i], withNav);
    }

    /**
     * DestroyEntity: the first registered entity with this id and type hands
     * back its components (no nav-node branch) and its own slot, then is
     * erased from the registry; an unknown key changes nothing, and a
     * Deallocate that throws leaves the registry as it was.
     */
    method DestroyEntity(entityId: uint32, eType: EntityType) returns (r: Outcome)
      requires Valid()
      modifies this`pools, Allocators(), pureEntityData`entities
      ensures Valid()
      ensures var es := old(pureEntityData.entities);
        var k := FirstMatch(es, entityId, eType);
        && (k == |es| ==> r == Pass && pools == old(pools) && pureEntityData.entities == es)
        && (k < |es| ==>
              && (pools, r) == ReleaseAll(old(pools), EntityReleases(old(ViewOf(es[k])), false))
              && pureEntityData.entities == if r.Pass? then Erase(es, k) else es)
    {
      var es := pureEntityData.entities;
      var k := FirstMatch(es, entityId, eType);
      if k == |es| {
        return Pass;
      }
      r := ReleaseEntity(es[k], false);
      if r.Pass? {
        pureEntityData.entities := Erase(es, k);
      }
    }

    /** Cleanup: every registered entity, nav nodes included, hands back its slots; then the registry is cleared. */
    method Cleanup() returns (r: Outcome)
      requires Valid()
      modifies this`pools, Allocators(), pureEntityData`entities
      ensures Valid()
      ensures (pools, r) == ReleaseAll(old(pools), CleanupReleases(old(Views(pureEntityData.entities))))
      ensures pureEntityData.entities == if r.Pass? then [] else old(pureEntityData.entities)
    {
      r := ReleaseRegistry();
      if r.Pass? {
        pureEntityData.entities := [];
      }
    }

    /** The loop of Cleanup: each registered entity in order, until the first Deallocate that throws. */
    method ReleaseRegistry() returns (r: Outcome)
      requires Valid()
      modifies this`pools, Allocators()
      ensures Valid()
      ensures (pools, r) == ReleaseAll(old(pools), CleanupReleases(old(Views(pureEntityData.entities))))
    {
      ghost var ms0 := pools;
      var es := pureEntityData.entities;
      ghost var vs := Views(es);
      var i := 0;
      r := Pass;
      while i < |es| && r.Pass?
        invariant 0 <= i <= |es| && Valid() && PoolsValid(ms0)
        invariant Views(es) == vs
        invariant (pools, r) == ReleaseAll(ms0, CleanupReleases(vs[..i]))
      {
        r := CleanupNext(es, i, vs, ms0);
        i := i + 1;
      }
      CleanupTail(ms0, vs, i, (pools, r));
    }

    /** One more entity of the registry: the Deallocate calls so far extend by those of es[i]. */
    method CleanupNext(es: seq<Entity>, i: nat, ghost vs: seq<EntityView>, ghost ms0: Pools) returns (r: Outcome)
      requires Valid() && PoolsValid(ms0) && i < |es| == |vs| && vs[i] == ViewOf(es[i])
      requires (pools, Pass) == ReleaseAll(ms0, CleanupReleases(vs[..i]))
      modifies this`pools, Allocators()
      ensures Valid()
      ensures (pools, r) == ReleaseAll(ms0, CleanupReleases(vs[..i + 1]))
    {
      CleanupReleasesStep(vs, i);
      ReleaseSplitAt(ms0, CleanupReleases(vs[..i + 1]), CleanupReleases(vs[..i]), EntityReleases(vs[i], true), (pools, Pass));
      r := ReleaseEntity(es[i], true);
    }

    // ------------------------------------------------------------ creation

    /** The count loop of createEntity: how many registered entities have type t. */
    method CountType(t: EntityType) returns (count: nat)
      requires Valid()
      ensures Valid()
      ensures count == TypeCount(pureEntityData.entities, t)
    {
      var es := pureEntityData.entities;
      count := 0;
      for i := 0 to |es|
        invariant count == TypeCount(es[..i], t)
      {
        assert es[..i + 1][..i] == es[..i];
        if es[i].eType == t {
          count := count + 1;
        }
      }
      assert es[..|es|] == es;
    }

    /** entities.push_back. */
    method Register(e: Entity)
      requires Valid()
      modifies pureEntityData`entities
      ensures Valid()
      ensures pureEntityData.entities == old(pureEntityData.entities) + [e]
    {
      pureEntityData.entities := pureEntityData.entities + [e];
    }


    /**
     * One more `Allocate` after the allocations `a` made from the pools
     * `ms0`, which handed out `ra`.
     */
    method AllocateNext(p: Pool, ghost ms0: Pools, ghost a: seq<Pool>, ghost ra: seq<Release>) returns (ptr: Ptr)
      requires Valid() && (pools, ra) == AllocateAll(ms0, a)
      modifies this`pools, Allocator(p)
      ensures Valid() && (pools, ra + [Release(p, ptr)]) == AllocateAll(ms0, a + [p])
    {
      AllocateAllSnoc(ms0, a, p);
      ptr := AllocateIn(p);
    }

    /**
     * createEntity: an entity slot is allocated and the entity appended to
     * the registry.  Its id is the number of entities of its type registered
     * before (wrapped to 32 bits by the int -> uint32_t assignment), or
     * savedID / savedEnemyID for a respawned player / enemy ship; a respawned
     * entity of any other type keeps the indeterminate id of its default
     * construction.
     */
    method CreateEntity(eType: EntityType, isRespawning: bool) returns (e: Entity)
      requires Valid()
      modifies this`pools, Allocators(), pureEntityData`entities
      ensures Valid() && fresh(e)
      ensures e.eType == eType && e.components == [] && e.AiDefaults()
      ensures !isRespawning ==> e.id as int == TypeCount(old(pureEntityData.entities), eType) % UINT32_LIMIT
      ensures isRespawning && eType == SpaceShip ==> e.id == old(savedID)
      ensures isRespawning && eType == EnemyShip ==> e.id == old(savedEnemyID)
      ensures pureEntityData.entities == old(pureEntityData.entities) + [e]
      ensures (pools, EntityHoldings(ViewOf(e))) == AllocateAll(old(pools), [EntityPool])
    {
      var addr := AllocateNext(EntityPool, pools, [], []);
      NilAppend([EntityPool]);
      NilAppend([Release(EntityPool, addr)]);
      var id: uint32;
      if !isRespawning {
        var count := CountType(eType);
        id := (count % UINT32_LIMIT) as uint32;
      } else if eType == SpaceShip {
        id := savedID;
      } else if eType == EnemyShip {
        id := savedEnemyID;
      } else {
        id :| true;
      }
      e := new Entity.Allocated(eType, id, addr);
      assert EntityHoldings(ViewOf(e)) == [Release(EntityPool, addr)];
      Register(e);
    }

    /** `XChunk.Allocate()` for a component of class `kind` other than a particle emitter. */
    method NewComponent(kind: ComponentType, ghost ms0: Pools, ghost a: seq<Pool>, ghost ra: seq<Release>)
      returns (c: ComponentBase)
      requires Valid() && PoolOf(kind).Some? && kind != PARTICLE_EMITTER
      requires (pools, ra) == AllocateAll(ms0, a)
      modifies this`pools, Allocators()
      ensures Valid() && fresh(c)
      ensures c.kind == kind && c.position == Pos(0, 0, 0)
      ensures (pools, ra + Holdings(c)) == AllocateAll(ms0, a + SlotPools(kind))
    {
      var addr := AllocateNext(PoolOf(kind).value, ms0, a, ra);
      c := new ComponentBase(kind, addr);
      PlainHoldings(c);
      PlainSlotPools(kind);
    }

    /** The four particle emitters of a particle emitter component: left, right, left canon, right canon. */
    method AllocateParticles(ghost ms0: Pools, ghost a: seq<Pool>, ghost ra: seq<Release>)
      returns (left: Ptr, right: Ptr, leftCanon: Ptr, rightCanon: Ptr)
      requires Valid() && (pools, ra) == AllocateAll(ms0, a)
      modifies this`pools, Allocators()
      ensures Valid()
      ensures (pools, ra + [Release(ParticlePool, left), Release(ParticlePool, right),
                            Release(ParticlePool, leftCanon), Release(ParticlePool, rightCanon)])
        == AllocateAll(ms0, a + [ParticlePool, ParticlePool, ParticlePool, ParticlePool])
    {
      ghost var a1, r1 := a, ra;
      left := AllocateNext(ParticlePool, ms0, a1, r1);
      a1, r1 := a1 + [ParticlePool], r1 + [Release(ParticlePool, left)];
      right := AllocateNext(ParticlePool, ms0, a1, r1);
      a1, r1 := a1 + [ParticlePool], r1 + [Release(ParticlePool, right)];
      leftCanon := AllocateNext(ParticlePool, ms0, a1, r1);
      a1, r1 := a1 + [ParticlePool], r1 + [Release(ParticlePool, leftCanon)];
      rightCanon := AllocateNext(ParticlePool, ms0, a1, r1);
      Snoc4(a, ParticlePool, ParticlePool, ParticlePool, ParticlePool);
      Snoc4(ra, Release(ParticlePool, left), Release(ParticlePool, right),
        Release(ParticlePool, leftCanon), Release(ParticlePool, rightCanon));
    }

    /** `particleEmitterChunk.Allocate()` and the four emitters allocated for the new component. */
    method NewEmitter(ghost ms0: Pools, ghost a: seq<Pool>, ghost ra: seq<Release>) returns (c: ComponentBase)
      requires Valid() && (pools, ra) == AllocateAll(ms0, a)
      modifies this`pools, Allocators()
      ensures Valid() && fresh(c)
      ensures c.kind == PARTICLE_EMITTER && c.position == Pos(0, 0, 0)
      ensures (pools, ra + Holdings(c)) == AllocateAll(ms0, a + SlotPools(PARTICLE_EMITTER))
    {
      var addr := AllocateNext(ParticleEmitterPool, ms0, a, ra);
      var left, right, leftCanon, rightCanon :=
        AllocateParticles(ms0, a + [ParticleEmitterPool], ra + [Release(ParticleEmitterPool, addr)]);
      c := new ComponentBase.Emitter(addr, left, right, leftCanon, rightCanon);
      EmitterHoldings(c);
      EmitterSlotPools();
      AppendAssoc(a, [ParticleEmitterPool], [ParticlePool, ParticlePool, ParticlePool, ParticlePool]);
      AppendAssoc(ra, [Release(ParticleEmitterPool, addr)],
        [Release(ParticlePool, left), Release(ParticlePool, right),
         Release(ParticlePool, leftCanon), Release(ParticlePool, rightCanon)]);
    }

    /** The slots of a new component of class `kind`: its own, and for a particle emitter its four emitters. */
    method NewSlots(kind: ComponentType, ghost ms0: Pools, ghost a: seq<Pool>, ghost ra: seq<Release>)
      returns (c: ComponentBase)
      requires Valid() && PoolOf(kind).Some? && (pools, ra) == AllocateAll(ms0, a)
      modifies this`pools, Allocators()
      ensures Valid() && fresh(c)
      ensures c.kind == kind && c.position == Pos(0, 0, 0)
      ensures (pools, ra + Holdings(c)) == AllocateAll(ms0, a + SlotPools(kind))
    {
      if kind == PARTICLE_EMITTER {
        c := NewEmitter(ms0, a, ra);
      } else {
        c := NewComponent(kind, ms0, a, ra);
      }
    }

    /** AddComponent of a new component `c` of class `kind` to `e`, after those of `done`. */
    method Link(e: Entity, done: seq<ComponentType>, kind: ComponentType, c: ComponentBase)
      requires Valid() && Attached(e, done) && kind != NONE && c.kind == kind && c !in e.components
      modifies e`components, c`ownerId, c`componentMask
      ensures Valid() && e.components == old(e.components) + [c]
      ensures Attached(e, done + [kind])
    {
      var mask := c.componentMask;
      e.AddComponent(c, kind, e.eType);
      OrSetsOnlyItsKind(mask, kind, kind);
      forall i | 0 <= i < |done| + 1
        ensures e.components[i].kind == (done + [kind])[i] && e.components[i].ownerId == e.id
        ensures Tests(e.components[i].componentMask, (done + [kind])[i])
      {
        if i < |done| {
          assert e.components[i] == old(e.components)[i] != c;
        }
      }
    }

    /**
     * One allocate-and-attach step of a creator: a component of class
     * `kind` takes fresh slots and is attached to `e` after those of `done`,
     * owned by it and with its kind's bit set.
     */
    method Attach(e: Entity, done: seq<ComponentType>, kind: ComponentType, ghost ms0: Pools) returns (c: ComponentBase)
      requires Valid() && PoolOf(kind).Some? && Attached(e, done)
      requires (pools, EntityHoldings(ViewOf(e))) == AllocateAll(ms0, [EntityPool] + KindPools(done))
      modifies this`pools, Allocators(), e`components
      ensures Valid() && fresh(c) && c.position == Pos(0, 0, 0)
      ensures e.components == old(e.components) + [c]
      ensures Attached(e, done + [kind])
      ensures (pools, EntityHoldings(ViewOf(e))) == AllocateAll(ms0, [EntityPool] + KindPools(done + [kind]))
      ensures pureEntityData.entities == old(pureEntityData.entities)
    {
      c := NewSlots(kind, ms0, [EntityPool] + KindPools(done), EntityHoldings(ViewOf(e)));
      AttachFold(ms0, done, kind, ViewOf(e), c, pools);
      Link(e, done, kind, c);
    }

    /** The transform every creator attaches first, moved to `position` when one is given. */
    method AttachTransform(e: Entity, position: Option<Pos>, ghost ms0: Pools)
      requires Valid() && e.components == []
      requires (pools, EntityHoldings(ViewOf(e))) == AllocateAll(ms0, [EntityPool])
      modifies this`pools, Allocators(), e`components
      ensures Valid() && Attached(e, [TRANSFORM])
      ensures (pools, EntityHoldings(ViewOf(e))) == AllocateAll(ms0, [EntityPool] + KindPools([TRANSFORM]))
      ensures e.components[0].position == if position.Some? then position.value else Pos(0, 0, 0)
      ensures pureEntityData.entities == old(pureEntityData.entities)
    {
      NilAppend([EntityPool]);
      NilAppend([TRANSFORM]);
      var transform := Attach(e, [], TRANSFORM, ms0);
      if position.Some? {
        transform.position := position.value;
      }
    }

    /** The component loop of a creator: one slot per class in `kinds`, attached in that order after those of `done`. */
    method AttachAll(e: Entity, done: seq<ComponentType>, kinds: seq<ComponentType>, ghost ms0: Pools)
      requires Valid() && Attached(e, done)
      requires (pools, EntityHoldings(ViewOf(e))) == AllocateAll(ms0, [EntityPool] + KindPools(done))
      requires forall i :: 0 <= i < |kinds| ==> PoolOf(kinds[i]).Some?
      modifies this`pools, Allocators(), e`components
      ensures Valid() && Attached(e, done + kinds)
      ensures |old(e.components)| <= |e.components| && e.components[..|old(e.components)|] == old(e.components)
      ensures (pools, EntityHoldings(ViewOf(e))) == AllocateAll(ms0, [EntityPool] + KindPools(done + kinds))
      ensures pureEntityData.entities == old(pureEntityData.entities)
    {
      WholeAndEmptyPrefix(done, kinds);
      WholeAndEmptyPrefix(e.components, e.components);
      for i := 0 to |kinds|
        invariant Valid() && Attached(e, done + kinds[..i])
        invariant |old(e.components)| <= |e.components| && e.components[..|old(e.components)|] == old(e.components)
        invariant (pools, EntityHoldings(ViewOf(e))) == AllocateAll(ms0, [EntityPool] + KindPools(done + kinds[..i]))
      {
        ghost var cs := e.components;
        var c := Attach(e, done + kinds[..i], kinds[i], ms0);
        TakeOneMore(done, kinds, i);
        PrefixKept(old(e.components), cs, c);
      }
    }

    /** createEntity followed by the transform every creator attaches first, moved to `position` when one is given. */
    method CreateWithTransform(eType: EntityType, isRespawning: bool, position: Option<Pos>) returns (e: Entity)
      requires Valid()
      modifies this`pools, Allocators(), pureEntityData`entities
      ensures Valid() && fresh(e)
      ensures e.eType == eType && Attached(e, [TRANSFORM])
      ensures e.components[0].position == if position.Some? then position.value else Pos(0, 0, 0)
      ensures !isRespawning ==> e.id as int == TypeCount(old(pureEntityData.entities), eType) % UINT32_LIMIT
      ensures isRespawning && eType == SpaceShip ==> e.id == old(savedID)
      ensures isRespawning && eType == EnemyShip ==> e.id == old(savedEnemyID)
      ensures pureEntityData.entities == old(pureEntityData.entities) + [e]
      ensures (pools, EntityHoldings(ViewOf(e))) == AllocateAll(old(pools), [EntityPool] + KindPools([TRANSFORM]))
    {
      e := CreateEntity(eType, isRespawning);
      AttachTransform(e, position, old(pools));
    }

    /**
     * The shape shared by the creators: createEntity, then a transform
     * (moved to `position` when one is given), then for each further class
     * in `kinds` a slot of its pool, attached in that order.
     */
    method CreateWith(eType: EntityType, isRespawning: bool, position: Option<Pos>, kinds: seq<ComponentType>)
      returns (e: Entity)
      requires Valid() && |kinds| > 0 && kinds[0] == TRANSFORM
      requires forall i :: 0 <= i < |kinds| ==> PoolOf(kinds[i]).Some?
      modifies this`pools, Allocators(), pureEntityData`entities
      ensures Valid() && fresh(e)
      ensures e.eType == eType && Attached(e, kinds)
      ensures e.components[0].position == if position.Some? then position.value else Pos(0, 0, 0)
      ensures !isRespawning ==> e.id as int == TypeCount(old(pureEntityData.entities), eType) % UINT32_LIMIT
      ensures isRespawning && eType == SpaceShip ==> e.id == old(savedID)
      ensures isRespawning && eType == EnemyShip ==> e.id == old(savedEnemyID)
      ensures pureEntityData.entities == old(pureEntityData.entities) + [e]
      ensures (pools, EntityHoldings(ViewOf(e))) == AllocateAll(old(pools), [EntityPool] + KindPools(kinds))
    {
      e := CreateWithTransform(eType, isRespawning, position);
      ghost var cs := e.components;
      AttachAll(e, [TRANSFORM], kinds[1..], old(pools));
      PrefixHead(cs, e.components);
      HeadTail(kinds);
    }

    /**
     * CreatePlayerShip: transform, renderable, collider, camera, input and
     * particle emitter; a first ship's transform is placed at (0, 10, 0), a
     * respawned one's stays at the origin.
     */
    method CreatePlayerShip(isRespawning: bool) returns (ship: Entity)
      requires Valid()
      modifies this`pools, Allocators(), pureEntityData`entities
      ensures Valid() && fresh(ship) && ship.eType == SpaceShip
      ensures Attached(ship, PlayerShipKinds)
      ensures ship.components[0].position == if isRespawning then Pos(0, 0, 0) else Pos(0, 10, 0)
      ensures !isRespawning ==> ship.id as int == TypeCount(old(pureEntityData.entities), SpaceShip) % UINT32_LIMIT
      ensures isRespawning ==> ship.id == savedID
      ensures pureEntityData.entities == old(pureEntityData.entities) + [ship]
      ensures (pools, EntityHoldings(ViewOf(ship))) == AllocateAll(old(pools), [EntityPool] + KindPools(PlayerShipKinds))
    {
      ship := CreateWith(SpaceShip, isRespawning, if isRespawning then None else Some(Pos(0, 10, 0)), PlayerShipKinds);
    }

    /** CreateEnemyShip: transform, renderable, collider, AI controller, camera and particle emitter; the transform stays at the origin. */
    method CreateEnemyShip(isRespawning: bool) returns (ship: Entity)
      requires Valid()
      modifies this`pools, Allocators(), pureEntityData`entities
      ensures Valid() && fresh(ship) && ship.eType == EnemyShip
      ensures Attached(ship, EnemyShipKinds)
      ensures ship.components[0].position == Pos(0, 0, 0)
      ensures !isRespawning ==> ship.id as int == TypeCount(old(pureEntityData.entities), EnemyShip) % UINT32_LIMIT
      ensures isRespawning ==> ship.id == savedEnemyID
      ensures pureEntityData.entities == old(pureEntityData.entities) + [ship]
      ensures (pools, EntityHoldings(ViewOf(ship))) == AllocateAll(old(pools), [EntityPool] + KindPools(EnemyShipKinds))
    {
      ship := CreateWith(EnemyShip, isRespawning, None, EnemyShipKinds);
    }

    /** CreateAsteroid: transform, renderable and collider; `offset` stands for the random translation. */
    method CreateAsteroid(offset: Pos) returns (asteroid: Entity)
      requires Valid()
      modifies this`pools, Allocators(), pureEntityData`entities
      ensures Valid() && fresh(asteroid) && asteroid.eType == Asteroid
      ensures Attached(asteroid, AsteroidKinds)
      ensures asteroid.components[0].position == offset
      ensures asteroid.id as int == TypeCount(old(pureEntityData.entities), Asteroid) % UINT32_LIMIT
      ensures pureEntityData.entities == old(pureEntityData.entities) + [asteroid]
      ensures (pools, EntityHoldings(ViewOf(asteroid))) == AllocateAll(old(pools), [EntityPool] + KindPools(AsteroidKinds))
    {
      asteroid := CreateWith(Asteroid, false, Some(offset), AsteroidKinds);
    }

    /** `nodes.push_back(node)` and `gridNodes[node->id] = node`. */
    method RegisterNode(node: Entity, ghost kinds: seq<ComponentType>)
      requires Valid() && Attached(node, kinds) && kinds != []
      modifies pureEntityData`nodes, pureEntityData`gridNodes
      ensures Valid() && Attached(node, kinds)
      ensures node.components == old(node.components) && node.components[0].position == old(node.components[0].position)
      ensures pureEntityData.entities == old(pureEntityData.entities)
      ensures pureEntityData.nodes == old(pureEntityData.nodes) + [node]
      ensures pureEntityData.gridNodes == old(pureEntityData.gridNodes)[node.id as int := node]
    {
      pureEntityData.nodes := pureEntityData.nodes + [node];
      pureEntityData.gridNodes := pureEntityData.gridNodes[node.id as int := node];
    }

    /**
     * CreatePathNode: transform at (-100, -100, -100) plus `delta` times
     * the lattice offsets, then a nav-node component; the node is appended
     * to the node list and entered in the id -> node map under its id.
     */
    method CreatePathNode(x: int, y: int, z: int, delta: int) returns (node: Entity)
      requires Valid()
      modifies this`pools, Allocators(), pureEntityData`entities, pureEntityData`nodes, pureEntityData`gridNodes
      ensures Valid() && fresh(node) && node.eType == Node
      ensures Attached(node, PathNodeKinds)
      ensures node.components[0].position == Pos(-100 + x * delta, -100 + y * delta, -100 + z * delta)
      ensures node.id as int == TypeCount(old(pureEntityData.entities), Node) % UINT32_LIMIT
      ensures pureEntityData.entities == old(pureEntityData.entities) + [node]
      ensures pureEntityData.nodes == old(pureEntityData.nodes) + [node]
      ensures pureEntityData.gridNodes == old(pureEntityData.gridNodes)[node.id as int := node]
      ensures (pools, EntityHoldings(ViewOf(node))) == AllocateAll(old(pools), [EntityPool] + KindPools(PathNodeKinds))
      ensures old(NodeRegistry(pureEntityData.entities, pureEntityData.nodes, pureEntityData.gridNodes)) &&
              |old(pureEntityData.nodes)| < UINT32_LIMIT ==>
                NodeRegistry(pureEntityData.entities, pureEntityData.nodes, pureEntityData.gridNodes)
    {
      ghost var es, ns, g := pureEntityData.entities, pureEntityData.nodes, pureEntityData.gridNodes;
      node := CreateWith(Node, false, Some(Pos(-100 + x * delta, -100 + y * delta, -100 + z * delta)), PathNodeKinds);
      RegisterNode(node, PathNodeKinds);
      if NodeRegistry(es, ns, g) && |ns| < UINT32_LIMIT {
        PathNodeKeepsRegistry(es, ns, g, node);
      }
    }

    // ------------------------------------------------------------ queries

    /** GetEntity: the first registered entity with the given id, whatever its type, or null. */
    method GetEntity(id: uint32) returns (e: Entity?)
      ensures var es := pureEntityData.entities;
        var k := FirstWithId(es, id);
        e == if k < |es| then es[k] else null
    {
      var es := pureEntityData.entities;
      for i := 0 to |es|
        invariant forall j :: 0 <= j < i ==> es[j].id != id
      {
        if es[i].id == id {
          assert FirstWithId(es, id) == i by {
            var k := FirstWithId(es, id);
            assert k <= i;
          }
          return es[i];
        }
      }
      return null;
    }

    /**
     * randomGetNode: the index is the random draw modulo the number of
     * nodes; looking it up with operator[] inserts a null entry when the key
     * is missing.  An empty node list would divide by zero.
     */
    method RandomGetNode(rand: nat) returns (node: Entity?)
      requires Valid() && |pureEntityData.nodes| > 0
      modifies this`randomIndex, pureEntityData`gridNodes
      ensures Valid() && randomIndex == rand % |pureEntityData.nodes|
      ensures var g := old(pureEntityData.gridNodes);
        && (randomIndex in g ==> node == g[randomIndex] && pureEntityData.gridNodes == g)
        && (randomIndex !in g ==> node == null && pureEntityData.gridNodes == g[randomIndex := null])
      ensures old(NodesIndexed(pureEntityData.nodes, pureEntityData.gridNodes)) ==>
        node == pureEntityData.nodes[randomIndex] && pureEntityData.gridNodes == old(pureEntityData.gridNodes)
    {
      randomIndex := rand % |pureEntityData.nodes|;
      if randomIndex !in pureEntityData.gridNodes {
        pureEntityData.gridNodes := pureEntityData.gridNodes[randomIndex := null];
      }
      node := pureEntityData.gridNodes[randomIndex];
    }

    /**
     * getclosestNodeFromAIship: the first node whose transform is nearest to
     * the ship's (squared distance, strict comparison), or null when there
     * are no nodes.
     */
    method GetClosestNode(ship: Entity) returns (closest: Entity?)
      requires ship.GetComponent(TRANSFORM) != null
      requires forall i :: 0 <= i < |pureEntityData.nodes| ==> pureEntityData.nodes[i].GetComponent(TRANSFORM) != null
      ensures var ns := pureEntityData.nodes;
        && (closest == null <==> ns == [])
        && (closest != null ==> exists k :: FirstLeast(NodeDists(ship.Position(), ns), k) && ns[k] == closest)
    {
      var ns := pureEntityData.nodes;
      var p := ship.Position();
      ghost var d := NodeDists(p, ns);
      closest := null;
      var best := 0;
      ghost var k := 0;
      for i := 0 to |ns|
        invariant i == 0 ==> closest == null
        invariant 0 <= k <= i && (i > 0 ==> k < i && closest == ns[k] && best == d[k])
        invariant forall j :: 0 <= j < i ==> best <= d[j]
        invariant forall j :: 0 <= j < k ==> d[j] > best
      {
        var dist := SqDist(p, ns[i].Position());
        if closest == null || dist < best {
          best, closest, k := dist, ns[i], i;
        }
      }
      assert ns != [] ==> FirstLeast(d, k);
    }

    // ------------------------------------------------------------ respawn

    /**
     * The player ship's respawn: its id is saved, a replacement is created
     * as a respawn (so it takes that id), then the old ship is destroyed by
     * its id and type.  With unique keys the old ship is the one destroyed:
     * its chain is handed back after the replacement's allocations, and the
     * replacement takes its place at the end of the registry.
     */
    method RespawnPlayerShip(ship: Entity) returns (replacement: Entity, r: Outcome)
      requires Valid() && ship.eType == SpaceShip
      modifies this`savedID, this`pools, Allocators(), pureEntityData`entities
      ensures Valid() && fresh(replacement) && savedID == ship.id
      ensures replacement.eType == SpaceShip && replacement.id == ship.id && Attached(replacement, PlayerShipKinds)
      ensures var created := AllocateAll(old(pools), [EntityPool] + KindPools(PlayerShipKinds));
        EntityHoldings(ViewOf(replacement)) == created.1
      ensures var es := old(pureEntityData.entities);
        var created := AllocateAll(old(pools), [EntityPool] + KindPools(PlayerShipKinds));
        UniqueKeys(es) && ship in es ==>
          && (pools, r) == ReleaseAll(created.0, EntityReleases(ViewOf(ship), false))
          && pureEntityData.entities == (if r.Pass? then Erase(es, FirstMatch(es, ship.id, SpaceShip)) else es) + [replacement]
          && (r.Pass? ==> UniqueKeys(pureEntityData.entities) && ship !in pureEntityData.entities)
    {
      ghost var es := pureEntityData.entities;
      savedID := ship.id;
      replacement := CreatePlayerShip(true);
      r := DestroyReplaced(ship, replacement, es, PlayerShipKinds);
    }

    /**
     * The DestroyEntity call that ends a respawn, right after `replacement`
     * was appended to the registry `es` with the key of `ship`.
     */
    method DestroyReplaced(ship: Entity, replacement: Entity, ghost es: seq<Entity>, ghost kinds: seq<ComponentType>)
      returns (r: Outcome)
      requires Valid() && pureEntityData.entities == es + [replacement] && replacement != ship
      requires replacement.id == ship.id && replacement.eType == ship.eType && Attached(replacement, kinds)
      modifies this`pools, Allocators(), pureEntityData`entities
      ensures Valid() && Attached(replacement, kinds)
      ensures UniqueKeys(es) && ship in es ==>
        && (pools, r) == ReleaseAll(old(pools), EntityReleases(ViewOf(ship), false))
        && pureEntityData.entities == (if r.Pass? then Erase(es, FirstMatch(es, ship.id, ship.eType)) else es) + [replacement]
        && (r.Pass? ==> UniqueKeys(pureEntityData.entities) && ship !in pureEntityData.entities)
    {
      r := DestroyEntity(ship.id, ship.eType);
      if UniqueKeys(es) && ship in es {
        RespawnReplacesOldShip(es, ship, replacement);
      }
    }

    /** The enemy ship's respawn: as the player's, with savedEnemyID and CreateEnemyShip. */
    method RespawnEnemyShip(ship: Entity) returns (replacement: Entity, r: Outcome)
      requires Valid() && ship.eType == EnemyShip
      modifies this`savedEnemyID, this`pools, Allocators(), pureEntityData`entities
      ensures Valid() && fresh(replacement) && savedEnemyID == ship.id
      ensures replacement.eType == EnemyShip && replacement.id == ship.id && Attached(replacement, EnemyShipKinds)
      ensures var created := AllocateAll(old(pools), [EntityPool] + KindPools(EnemyShipKinds));
        EntityHoldings(ViewOf(replacement)) == created.1
      ensures var es := old(pureEntityData.entities);
        var created := AllocateAll(old(pools), [EntityPool] + KindPools(EnemyShipKinds));
        UniqueKeys(es) && ship in es ==>
          && (pools, r) == ReleaseAll(created.0, EntityReleases(ViewOf(ship), false))
          && pureEntityData.entities == (if r.Pass? then Erase(es, FirstMatch(es, ship.id, EnemyShip)) else es) + [replacement]
          && (r.Pass? ==> UniqueKeys(pureEntityData.entities) && ship !in pureEntityData.entities)
    {
      ghost var es := pureEntityData.entities;
      savedEnemyID := ship.id;
      replacement := CreateEnemyShip(true);
      r := DestroyReplaced(ship, replacement, es, EnemyShipKinds);
    }
  }
}
