/**
 * The eleven chunk allocators a World owns (world.h), seen as one map from
 * pool to allocator state, and what creating and destroying entities does
 * to them: which pool each component class is handed back to, and the
 * effect of a sequence of Deallocate or Allocate calls.
 */
module WorldPools {
  import opened Wrappers
  import opened ComponentTypes
  import opened ChunkAllocation
  import opened Components
  import opened Entities

  /** One pool per ChunkAllocator member of World. */
  datatype Pool =
    | EntityPool
    | TransformPool
    | RenderablePool
    | CameraPool
    | ColliderPool
    | RigidBodyPool
    | InputPool
    | AiControllerPool
    | ParticleEmitterPool
    | ParticlePool
    | NavNodePool

  /** A Deallocate call: the pool and the address handed back to it. */
  datatype Release = Release(pool: Pool, ptr: Ptr)

  /** The states of all pools; a World keeps every pool in it. */
  type Pools = map<Pool, AllocModel>

  /** Every pool has a state. */
  ghost predicate Complete(ms: Pools)
  {
    forall p: Pool :: p in ms
  }

  /** The state of pool `p` is there and valid. */
  ghost predicate PoolValid(ms: Pools, p: Pool)
  {
    p in ms && ValidModel(ms[p])
  }

  /** Every pool has a valid state. */
  ghost predicate PoolsValid(ms: Pools)
  {
    Complete(ms) && forall p: Pool :: PoolValid(ms, p)
  }

  /** Replacing one pool's state by a valid one keeps every pool valid. */
  lemma PoolsValidUpdate(ms: Pools, p: Pool, m: AllocModel, ms': Pools)
    requires PoolsValid(ms) && ValidModel(m) && ms' == ms[p := m]
    ensures PoolsValid(ms')
  {
    forall q: Pool
      ensures PoolValid(ms', q)
    {
      if q != p {
        assert PoolValid(ms, q);
      }
    }
  }

  /** The allocator a component of class `kind` is allocated from; FORCE has none. */
  function PoolOf(kind: ComponentType): (p: Option<Pool>)
    ensures p.None? <==> kind == NONE || kind == FORCE
    ensures p.Some? ==> p.value != EntityPool && p.value != ParticlePool
  {
    match kind
    case TRANSFORM => Some(TransformPool)
    case RENDERABLE => Some(RenderablePool)
    case COLLIDER => Some(ColliderPool)
    case RIGIDBODY => Some(RigidBodyPool)
    case CAMERA => Some(CameraPool)
    case INPUT => Some(InputPool)
    case AI_CONTROLLER => Some(AiControllerPool)
    case PARTICLE_EMITTER => Some(ParticleEmitterPool)
    case NAVNODE => Some(NavNodePool)
    case NONE => None
    case FORCE => None
  }

  /**
   * The pool the dynamic_cast chain hands a component of class `kind` back
   * to: the one it was allocated from, except that DestroyEntity's chain
   * (withNav false) has no branch for the nav-node component; Cleanup's
   * (withNav true) has one.
   */
  function ReleasePool(kind: ComponentType, withNav: bool): (p: Option<Pool>)
    ensures p.Some? ==> p == PoolOf(kind)
    ensures p.None? <==> PoolOf(kind).None? || (kind == NAVNODE && !withNav)
  {
    if kind == NAVNODE && !withNav then None else PoolOf(kind)
  }

  /**
   * The Deallocate calls for one component: a particle emitter component
   * first hands back its left and right emitters (not its two canons), then
   * itself.
   */
  function ComponentReleases(c: ComponentBase, withNav: bool): seq<Release>
  {
    match ReleasePool(c.kind, withNav)
    case None => []
    case Some(p) =>
      if p == ParticleEmitterPool then [Release(ParticlePool, c.emitterLeft), Release(ParticlePool, c.emitterRight), Release(p, c.addr)]
      else [Release(p, c.addr)]
  }

  /** The Deallocate calls for a component list, component by component in list order. */
  function ComponentsReleases(cs: seq<ComponentBase>, withNav: bool): seq<Release>
  {
    if cs == [] then [] else ComponentsReleases(cs[..|cs| - 1], withNav) + ComponentReleases(cs[|cs| - 1], withNav)
  }

  /** What the Deallocate calls of an entity depend on: its own slot and its component list. */
  datatype EntityView = EntityView(addr: Ptr, components: seq<ComponentBase>)

  /** An entity's slot and its current component list. */
  function ViewOf(e: Entity): EntityView
    reads e`components
  {
    EntityView(e.addr, e.components)
  }

  /** The views of a registry, entity by entity. */
  function Views(es: seq<Entity>): (vs: seq<EntityView>)
    reads es`components
    ensures |vs| == |es| && forall i :: 0 <= i < |es| ==> vs[i] == ViewOf(es[i])
  {
    if es == [] then [] else [ViewOf(es[0])] + Views(es[1..])
  }

  /** The Deallocate calls for an entity: its components, then its own slot. */
  function EntityReleases(e: EntityView, withNav: bool): seq<Release>
  {
    ComponentsReleases(e.components, withNav) + [Release(EntityPool, e.addr)]
  }

  /** The runs of Deallocate calls in `ss`, one after the other. */
  function Flatten(ss: seq<seq<Release>>): seq<Release>
  {
    if ss == [] then [] else Flatten(ss[..|ss| - 1]) + ss[|ss| - 1]
  }

  /** Cleanup's Deallocate calls for each registered entity, nav nodes included. */
  function EntitiesReleases(es: seq<EntityView>): (ss: seq<seq<Release>>)
    ensures |ss| == |es| && forall i :: 0 <= i < |es| ==> ss[i] == EntityReleases(es[i], true)
  {
    seq(|es|, i requires 0 <= i < |es| => EntityReleases(es[i], true))
  }

  /** Cleanup's Deallocate calls: every registered entity in order. */
  function CleanupReleases(es: seq<EntityView>): seq<Release>
  {
    Flatten(EntitiesReleases(es))
  }

  /**
   * A sequence of Deallocate calls: each one as DeallocateSpec says; the
   * first that throws ends the sequence with the state reached so far.
   */
  function ReleaseAll(ms: Pools, rs: seq<Release>): (r: (Pools, Outcome))
    requires Complete(ms)
    ensures Complete(r.0)
    ensures r.1 == Pass || r.1 == Fail(InvalidArgument)
    decreases |rs|
  {
    if rs == [] then (ms, Pass)
    else
      var p := rs[0].pool;
      var (m', o) := DeallocateSpec(ms[p], rs[0].ptr);
      if o.Fail? then (ms[p := m'], o) else ReleaseAll(ms[p := m'], rs[1..])
  }

  /** Every run of Deallocate calls keeps every allocator valid. */
  lemma {:induction false} ReleaseAllPreservesValid(ms: Pools, rs: seq<Release>)
    requires PoolsValid(ms)
    ensures PoolsValid(ReleaseAll(ms, rs).0)
    decreases |rs|
  {
    if rs != [] {
      var p := rs[0].pool;
      assert PoolValid(ms, p);
      DeallocatePreservesValid(ms[p], rs[0].ptr);
      var (m', o) := DeallocateSpec(ms[p], rs[0].ptr);
      PoolsValidUpdate(ms, p, m', ms[p := m']);
      if o.Pass? {
        ReleaseAllPreservesValid(ms[p := m'], rs[1..]);
      }
    }
  }

  /**
   * The slots a component holds once its creator has set it up: its own
   * slot and, for a particle emitter component, the four particle emitters
   * (left, right, left canon, right canon) allocated for it.
   */
  function Holdings(c: ComponentBase): seq<Release>
  {
    match PoolOf(c.kind)
    case None => []
    case Some(p) =>
      [Release(p, c.addr)] +
        (if p == ParticleEmitterPool
         then [Release(ParticlePool, c.emitterLeft), Release(ParticlePool, c.emitterRight),
               Release(ParticlePool, c.canonLeft), Release(ParticlePool, c.canonRight)]
         else [])
  }

  function ComponentsHoldings(cs: seq<ComponentBase>): seq<Release>
  {
    if cs == [] then [] else ComponentsHoldings(cs[..|cs| - 1]) + Holdings(cs[|cs| - 1])
  }

  /** The slots an entity holds: its own slot, then its components' in list order. */
  function EntityHoldings(e: EntityView): seq<Release>
  {
    [Release(EntityPool, e.addr)] + ComponentsHoldings(e.components)
  }

  ghost predicate Distinct(rs: seq<Release>)
  {
    forall i, j :: 0 <= i < j < |rs| ==> rs[i] != rs[j]
  }

  // ---------------------------------------------------------------- lemmas

  /** A single Deallocate call. */
  lemma ReleaseOne(ms: Pools, p: Pool, ptr: Ptr)
    requires Complete(ms)
    ensures ReleaseAll(ms, [Release(p, ptr)]) == (ms[p := DeallocateSpec(ms[p], ptr).0], DeallocateSpec(ms[p], ptr).1)
  {
  }

  /** Running two sequences of Deallocate calls back to back is running their concatenation. */
  lemma {:induction false} ReleaseAllAppend(ms: Pools, a: seq<Release>, b: seq<Release>)
    requires Complete(ms)
    ensures ReleaseAll(ms, a + b) ==
      (var (m1, o1) := ReleaseAll(ms, a); if o1.Fail? then (m1, o1) else ReleaseAll(m1, b))
    decreases |a|
  {
    if a != [] {
      assert (a + b)[0] == a[0] && (a + b)[1..] == a[1..] + b;
      var p := a[0].pool;
      var (m', o) := DeallocateSpec(ms[p], a[0].ptr);
      if o.Pass? {
        ReleaseAllAppend(ms[p := m'], a[1..], b);
      }
    } else {
      assert a + b == b;
    }
  }

  /** Once a Deallocate call has thrown, the calls listed after it are never made. */
  lemma ReleaseAllFailSticks(ms: Pools, a: seq<Release>, b: seq<Release>)
    requires Complete(ms) && ReleaseAll(ms, a).1.Fail?
    ensures ReleaseAll(ms, a + b) == ReleaseAll(ms, a)
  {
    ReleaseAllAppend(ms, a, b);
  }

  /** The calls for the first k + 1 components: those for the first k, then those for component k. */
  lemma ComponentsReleasesStep(cs: seq<ComponentBase>, k: nat, withNav: bool)
    requires k < |cs|
    ensures ComponentsReleases(cs[..k + 1], withNav) == ComponentsReleases(cs[..k], withNav) + ComponentReleases(cs[k], withNav)
  {
    assert cs[..k + 1][..k] == cs[..k];
  }

  /** Cleanup's calls for the first k + 1 entities: those for the first k, then those for entity k. */
  lemma CleanupReleasesStep(es: seq<EntityView>, k: nat)
    requires k < |es|
    ensures CleanupReleases(es[..k + 1]) == CleanupReleases(es[..k]) + EntityReleases(es[k], true)
  {
    var ss := EntitiesReleases(es[..k + 1]);
    assert ss[..k] == EntitiesReleases(es[..k]);
  }

  /** The calls for a component list are those for a prefix followed by those for the rest. */
  lemma {:induction false} ComponentsReleasesSplit(cs: seq<ComponentBase>, j: nat, withNav: bool)
    requires j <= |cs|
    ensures ComponentsReleases(cs, withNav) == ComponentsReleases(cs[..j], withNav) + ComponentsReleases(cs[j..], withNav)
    decreases |cs|
  {
    if j < |cs| {
      var cs' := cs[..|cs| - 1];
      ComponentsReleasesSplit(cs', j, withNav);
      assert cs'[..j] == cs[..j];
      ComponentsReleasesOfSuffix(cs, j, withNav);
      var head, mid, last := ComponentsReleases(cs[..j], withNav), ComponentsReleases(cs'[j..], withNav), ComponentReleases(cs[|cs| - 1], withNav);
      assert ComponentsReleases(cs, withNav) == (head + mid) + last;
    } else {
      assert cs[..j] == cs;
    }
  }

  /** A suffix ending at the last component: the suffix without it, then it. */
  lemma ComponentsReleasesOfSuffix(cs: seq<ComponentBase>, j: nat, withNav: bool)
    requires j < |cs|
    ensures ComponentsReleases(cs[j..], withNav) ==
      ComponentsReleases(cs[..|cs| - 1][j..], withNav) + ComponentReleases(cs[|cs| - 1], withNav)
  {
    var t := cs[j..];
    assert t[..|t| - 1] == cs[..|cs| - 1][j..];
  }

  /** Runs of calls one after the other: those of a prefix of the runs, then those of the rest. */
  lemma {:induction false} FlattenSplit(ss: seq<seq<Release>>, j: nat)
    requires j <= |ss|
    ensures Flatten(ss) == Flatten(ss[..j]) + Flatten(ss[j..])
    decreases |ss|
  {
    if j < |ss| {
      var ss' := ss[..|ss| - 1];
      FlattenSplit(ss', j);
      assert ss'[..j] == ss[..j];
      var t := ss[j..];
      assert t[..|t| - 1] == ss'[j..];
      assert Flatten(ss) == (Flatten(ss[..j]) + Flatten(ss'[j..])) + ss[|ss| - 1];
    } else {
      assert ss[..j] == ss;
    }
  }

  /** Releasing a list that starts with `head`: a failure in `head` is final, otherwise the rest follows. */
  lemma ReleaseSplitAt(ms: Pools, all: seq<Release>, head: seq<Release>, rest: seq<Release>, done: (Pools, Outcome))
    requires Complete(ms) && all == head + rest && done == ReleaseAll(ms, head)
    ensures done.1.Fail? ==> ReleaseAll(ms, all) == done
    ensures done.1.Pass? ==> ReleaseAll(ms, all) == ReleaseAll(done.0, rest)
  {
    ReleaseAllAppend(ms, head, rest);
  }

  /** Cleanup's loop ends at the end of the registry or at the first failure: either way it has run all of CleanupReleases. */
  lemma CleanupTail(ms: Pools, es: seq<EntityView>, i: nat, done: (Pools, Outcome))
    requires Complete(ms) && i <= |es|
    requires done == ReleaseAll(ms, CleanupReleases(es[..i]))
    requires i == |es| || done.1.Fail?
    ensures ReleaseAll(ms, CleanupReleases(es)) == done
  {
    if i == |es| {
      assert es[..i] == es;
    } else {
      var ss := EntitiesReleases(es);
      FlattenSplit(ss, i);
      assert ss[..i] == EntitiesReleases(es[..i]);
      ReleaseSplitAt(ms, Flatten(ss), Flatten(ss[..i]), Flatten(ss[i..]), done);
    }
  }

  /**
   * How the Deallocate calls for an entity end once its component loop
   * stops after i components: a throw ends them there, otherwise the
   * entity's own slot is handed back last.
   */
  lemma ReleaseEntityTail(ms: Pools, e: EntityView, withNav: bool, i: nat, done: (Pools, Outcome))
    requires Complete(ms) && i <= |e.components|
    requires done == ReleaseAll(ms, ComponentsReleases(e.components[..i], withNav))
    requires i == |e.components| || done.1.Fail?
    ensures done.1.Fail? ==> ReleaseAll(ms, EntityReleases(e, withNav)) == done
    ensures done.1.Pass? ==> ReleaseAll(ms, EntityReleases(e, withNav)) == ReleaseAll(done.0, [Release(EntityPool, e.addr)])
  {
    var cs := e.components;
    var own := [Release(EntityPool, e.addr)];
    var whole := ComponentsReleases(cs, withNav);
    var head := ComponentsReleases(cs[..i], withNav);
    if done.1.Pass? {
      assert cs[..i] == cs;
      ReleaseSplitAt(ms, whole + own, whole, own, done);
    } else {
      ComponentsReleasesSplit(cs, i, withNav);
      ReleaseAllFailSticks(ms, head, ComponentsReleases(cs[i..], withNav));
      ReleaseAllFailSticks(ms, whole, own);
    }
  }

  /** (p, x) is live: x is an address handed out by pool p and not yet given back. */
  ghost predicate LiveIn(ms: Pools, r: Release)
  {
    r.pool in ms && IsLive(ms[r.pool], r.ptr)
  }

  /**
   * Handing back distinct live addresses never throws, and afterwards
   * exactly those addresses are no longer live: every other pool and address
   * keeps its state.
   */
  lemma {:induction false} ReleaseLiveNeverFails(ms: Pools, rs: seq<Release>)
    requires PoolsValid(ms)
    requires forall i :: 0 <= i < |rs| ==> LiveIn(ms, rs[i])
    requires Distinct(rs)
    ensures ReleaseAll(ms, rs).1 == Pass
    ensures forall r :: LiveIn(ReleaseAll(ms, rs).0, r) <==> LiveIn(ms, r) && r !in rs
    decreases |rs|
  {
    if rs != [] {
      ReleaseLiveOne(ms, rs[0]);
      var ms' := ms[rs[0].pool := DeallocateSpec(ms[rs[0].pool], rs[0].ptr).0];
      assert ReleaseAll(ms, rs) == ReleaseAll(ms', rs[1..]);
      var tail := rs[1..];
      forall i | 0 <= i < |tail|
        ensures LiveIn(ms', tail[i])
      {
        assert tail[i] == rs[i + 1] != rs[0];
      }
      ReleaseLiveNeverFails(ms', tail);
      forall r
        ensures LiveIn(ReleaseAll(ms, rs).0, r) <==> LiveIn(ms, r) && r !in rs
      {
        assert r in rs <==> r == rs[0] || r in tail;
      }
    }
  }

  /** Handing back one live address does not throw, and it is the only one to stop being live. */
  lemma ReleaseLiveOne(ms: Pools, x: Release)
    requires PoolsValid(ms) && LiveIn(ms, x)
    ensures var (m', o) := DeallocateSpec(ms[x.pool], x.ptr);
      && o == Pass
      && PoolsValid(ms[x.pool := m'])
      && forall r :: LiveIn(ms[x.pool := m'], r) <==> LiveIn(ms, r) && r != x
  {
    assert PoolValid(ms, x.pool);
    DeallocateRemovesLive(ms[x.pool], x.ptr);
    DeallocatePreservesValid(ms[x.pool], x.ptr);
    PoolsValidUpdate(ms, x.pool, DeallocateSpec(ms[x.pool], x.ptr).0, ms[x.pool := DeallocateSpec(ms[x.pool], x.ptr).0]);
  }

  /** DestroyEntity never hands anything back to the nav-node pool. */
  lemma {:induction false} DestroySkipsNavNodes(cs: seq<ComponentBase>)
    ensures forall r :: r in ComponentsReleases(cs, false) ==> r.pool != NavNodePool && r.pool != EntityPool
  {
    if cs != [] {
      DestroySkipsNavNodes(cs[..|cs| - 1]);
    }
  }

  /** The particle pool only ever gets back a particle emitter component's left and right emitters. */
  lemma {:induction false} ParticlesOnlyFromEmitters(cs: seq<ComponentBase>, withNav: bool)
    ensures forall r :: r in ComponentsReleases(cs, withNav) && r.pool == ParticlePool ==>
      exists c :: c in cs && c.kind == PARTICLE_EMITTER && (r.ptr == c.emitterLeft || r.ptr == c.emitterRight)
  {
    if cs != [] {
      ParticlesOnlyFromEmitters(cs[..|cs| - 1], withNav);
      var c := cs[|cs| - 1];
      forall r | r in ComponentsReleases(cs, withNav) && r.pool == ParticlePool
        ensures exists c :: c in cs && c.kind == PARTICLE_EMITTER && (r.ptr == c.emitterLeft || r.ptr == c.emitterRight)
      {
        if r in ComponentsReleases(cs[..|cs| - 1], withNav) {
          var c0 :| c0 in cs[..|cs| - 1] && c0.kind == PARTICLE_EMITTER && (r.ptr == c0.emitterLeft || r.ptr == c0.emitterRight);
          assert c0 in cs;
        } else {
          assert c in cs && c.kind == PARTICLE_EMITTER;
        }
      }
    }
  }

  /** Every component of a class the chain knows is handed back to its own pool, at its own address. */
  lemma {:induction false} ComponentIsReleased(cs: seq<ComponentBase>, withNav: bool, k: nat)
    requires k < |cs| && ReleasePool(cs[k].kind, withNav).Some?
    ensures Release(ReleasePool(cs[k].kind, withNav).value, cs[k].addr) in ComponentsReleases(cs, withNav)
  {
    if k < |cs| - 1 {
      ComponentIsReleased(cs[..|cs| - 1], withNav, k);
    }
  }

  /**
   * One Allocate call on pool p: the address it hands out was not live
   * before and is the only one that becomes live.
   */
  lemma AllocateInPool(ms: Pools, p: Pool)
    requires PoolsValid(ms)
    ensures var (m', x) := AllocateSpec(ms[p]);
      && PoolsValid(ms[p := m']) && x != Null
      && !LiveIn(ms, Release(p, x))
      && forall r :: LiveIn(ms[p := m'], r) <==> LiveIn(ms, r) || r == Release(p, x)
  {
    assert PoolValid(ms, p);
    AllocatePreservesValid(ms[p]);
    AllocateNeverNull(ms[p]);
    AllocateAddsLive(ms[p]);
    PoolsValidUpdate(ms, p, AllocateSpec(ms[p]).0, ms[p := AllocateSpec(ms[p]).0]);
  }

  /** A concatenation has no repeats iff neither part has one and they share nothing. */
  lemma DistinctConcat(a: seq<Release>, b: seq<Release>)
    ensures Distinct(a + b) <==> Distinct(a) && Distinct(b) && forall x :: x in a ==> x !in b
  {
    var ab := a + b;
    if Distinct(ab) {
      forall i, j | 0 <= i < j < |a|
        ensures a[i] != a[j]
      {
        assert a[i] == ab[i] && a[j] == ab[j];
      }
      forall i, j | 0 <= i < j < |b|
        ensures b[i] != b[j]
      {
        assert b[i] == ab[|a| + i] && b[j] == ab[|a| + j];
      }
      forall x | x in a
        ensures x !in b
      {
        var i :| 0 <= i < |a| && a[i] == x;
        forall j | 0 <= j < |b|
          ensures b[j] != x
        {
          assert ab[i] == x && ab[|a| + j] == b[j];
        }
      }
    }
    if Distinct(a) && Distinct(b) && forall x :: x in a ==> x !in b {
      forall i, j | 0 <= i < j < |ab|
        ensures ab[i] != ab[j]
      {
        if j < |a| {
        } else if i >= |a| {
          assert ab[i] == b[i - |a|] && ab[j] == b[j - |a|];
        } else {
          assert ab[i] in a && ab[j] == b[j - |a|];
        }
      }
    }
  }

  /**
   * Every Deallocate call of the chain hands back a slot the components
   * hold, so slots held once are handed back at most once.
   */
  lemma {:induction false} ReleasesWithinHoldings(cs: seq<ComponentBase>, withNav: bool)
    ensures forall r :: r in ComponentsReleases(cs, withNav) ==> r in ComponentsHoldings(cs)
    ensures Distinct(ComponentsHoldings(cs)) ==> Distinct(ComponentsReleases(cs, withNav))
  {
    if cs != [] {
      var c := cs[|cs| - 1];
      ReleasesWithinHoldings(cs[..|cs| - 1], withNav);
      ComponentReleasesWithinHoldings(c, withNav);
      ConcatWithin(ComponentsReleases(cs[..|cs| - 1], withNav), ComponentReleases(c, withNav),
                   ComponentsHoldings(cs[..|cs| - 1]), Holdings(c));
    }
  }

  /** What one component hands back is among what it holds, without repeats when its holdings have none. */
  lemma ComponentReleasesWithinHoldings(c: ComponentBase, withNav: bool)
    ensures forall x :: x in ComponentReleases(c, withNav) ==> x in Holdings(c)
    ensures Distinct(Holdings(c)) ==> Distinct(ComponentReleases(c, withNav))
  {
    var h, r := Holdings(c), ComponentReleases(c, withNav);
    if PoolOf(c.kind) == Some(ParticleEmitterPool) && r != [] {
      assert r == [h[1], h[2], h[0]];
    }
  }

  /** Containment and freedom from repeats carry over from the parts to their concatenation. */
  lemma ConcatWithin(r1: seq<Release>, r2: seq<Release>, h1: seq<Release>, h2: seq<Release>)
    requires forall x :: x in r1 ==> x in h1
    requires forall x :: x in r2 ==> x in h2
    requires Distinct(h1) ==> Distinct(r1)
    requires Distinct(h2) ==> Distinct(r2)
    ensures forall x :: x in r1 + r2 ==> x in h1 + h2
    ensures Distinct(h1 + h2) ==> Distinct(r1 + r2)
  {
    DistinctConcat(h1, h2);
    DistinctConcat(r1, r2);
  }

  /**
   * The particle emitter component's two canons are held but never handed
   * back by the chain.
   */
  lemma {:induction false} CanonsNotReleased(cs: seq<ComponentBase>, withNav: bool, k: nat)
    requires Distinct(ComponentsHoldings(cs))
    requires k < |cs| && cs[k].kind == PARTICLE_EMITTER
    ensures Release(ParticlePool, cs[k].canonLeft) in ComponentsHoldings(cs)
    ensures Release(ParticlePool, cs[k].canonRight) in ComponentsHoldings(cs)
    ensures Release(ParticlePool, cs[k].canonLeft) !in ComponentsReleases(cs, withNav)
    ensures Release(ParticlePool, cs[k].canonRight) !in ComponentsReleases(cs, withNav)
  {
    var init, c := cs[..|cs| - 1], cs[|cs| - 1];
    var h', h := ComponentsHoldings(init), Holdings(c);
    var r', r := ComponentsReleases(init, withNav), ComponentReleases(c, withNav);
    assert ComponentsHoldings(cs) == h' + h && ComponentsReleases(cs, withNav) == r' + r;
    DistinctConcat(h', h);
    ReleasesWithinHoldings(init, withNav);
    ComponentReleasesWithinHoldings(c, withNav);
    if k == |cs| - 1 {
      EmitterKeepsCanons(c, withNav);
    } else {
      assert init[k] == cs[k];
      CanonsNotReleased(init, withNav, k);
    }
  }

  /** A particle emitter component holds its two canons and does not hand them back. */
  lemma EmitterKeepsCanons(c: ComponentBase, withNav: bool)
    requires c.kind == PARTICLE_EMITTER && Distinct(Holdings(c))
    ensures Release(ParticlePool, c.canonLeft) in Holdings(c) && Release(ParticlePool, c.canonRight) in Holdings(c)
    ensures Release(ParticlePool, c.canonLeft) !in ComponentReleases(c, withNav)
    ensures Release(ParticlePool, c.canonRight) !in ComponentReleases(c, withNav)
  {
    var h := Holdings(c);
    assert h[3] == Release(ParticlePool, c.canonLeft) && h[4] == Release(ParticlePool, c.canonRight);
    assert ComponentReleases(c, withNav) == [h[1], h[2], h[0]];
  }

  /**
   * Destroying an entity whose slots are distinct and live, as creation
   * leaves them, never throws, and afterwards exactly the slots handed back
   * are no longer live: the two canons of a particle emitter component stay
   * live.
   */
  lemma DestroyAfterCreate(ms: Pools, e: EntityView, withNav: bool)
    requires PoolsValid(ms) && Distinct(EntityHoldings(e))
    requires forall r :: r in EntityHoldings(e) ==> LiveIn(ms, r)
    ensures ReleaseAll(ms, EntityReleases(e, withNav)).1 == Pass
    ensures forall r :: LiveIn(ReleaseAll(ms, EntityReleases(e, withNav)).0, r) <==> LiveIn(ms, r) && r !in EntityReleases(e, withNav)
    ensures forall k :: 0 <= k < |e.components| && e.components[k].kind == PARTICLE_EMITTER ==>
      && LiveIn(ReleaseAll(ms, EntityReleases(e, withNav)).0, Release(ParticlePool, e.components[k].canonLeft))
      && LiveIn(ReleaseAll(ms, EntityReleases(e, withNav)).0, Release(ParticlePool, e.components[k].canonRight))
  {
    var own := Release(EntityPool, e.addr);
    var h, rs := ComponentsHoldings(e.components), ComponentsReleases(e.components, withNav);
    DistinctConcat([own], h);
    ReleasesWithinHoldings(e.components, withNav);
    DistinctConcat(rs, [own]);
    ReleaseLiveNeverFails(ms, rs + [own]);
    forall k | 0 <= k < |e.components| && e.components[k].kind == PARTICLE_EMITTER
      ensures Release(ParticlePool, e.components[k].canonLeft) !in rs + [own]
      ensures Release(ParticlePool, e.components[k].canonRight) !in rs + [own]
      ensures Release(ParticlePool, e.components[k].canonLeft) in EntityHoldings(e)
      ensures Release(ParticlePool, e.components[k].canonRight) in EntityHoldings(e)
    {
      CanonsNotReleased(e.components, withNav, k);
    }
  }

  // -------------------------------------------------------------- creation

  /**
   * From the pools `ms0` to the pools `ms`, exactly the slots `rs` have
   * become live: they are distinct, none was live before, and every other
   * slot kept its liveness.
   */
  ghost predicate Grown(ms0: Pools, ms: Pools, rs: seq<Release>)
  {
    && Distinct(rs)
    && (forall r :: r in rs ==> !LiveIn(ms0, r))
    && (forall r :: LiveIn(ms, r) <==> LiveIn(ms0, r) || r in rs)
  }

  /**
   * The pools one component of class `kind` is allocated from, in order:
   * its own pool, then for a particle emitter the four particle emitters
   * (left, right, left canon, right canon); FORCE and NONE have none.
   */
  function SlotPools(kind: ComponentType): (ps: seq<Pool>)
    ensures PoolOf(kind).Some? ==> |ps| >= 1 && ps[0] == PoolOf(kind).value
  {
    match PoolOf(kind)
    case None => []
    case Some(p) =>
      [p] + (if p == ParticleEmitterPool then [ParticlePool, ParticlePool, ParticlePool, ParticlePool] else [])
  }

  /** The pools a list of components is allocated from, component by component. */
  function KindPools(kinds: seq<ComponentType>): seq<Pool>
  {
    if kinds == [] then [] else KindPools(kinds[..|kinds| - 1]) + SlotPools(kinds[|kinds| - 1])
  }

  /**
   * One `Allocate` per entry of `ps`, in order, each on the pool it names:
   * the pools afterwards and the slots handed out.
   */
  function AllocateAll(ms: Pools, ps: seq<Pool>): (r: (Pools, seq<Release>))
    ensures Complete(ms) ==> Complete(r.0)
    decreases |ps|, 1
  {
    if ps == [] then (ms, []) else AllocateLast(ms, ps)
  }

  /** The last `Allocate` of a nonempty run, after those of all the entries before it. */
  function AllocateLast(ms: Pools, ps: seq<Pool>): (r: (Pools, seq<Release>))
    requires ps != []
    ensures Complete(ms) ==> Complete(r.0)
    decreases |ps|, 0
  {
    var (ms1, rs) := AllocateAll(ms, ps[..|ps| - 1]);
    var p := ps[|ps| - 1];
    var (m, ptr) := if p in ms1 then AllocateSpec(ms1[p]) else (AllocModel([], 0), Null);
    (ms1[p := m], rs + [Release(p, ptr)])
  }

  /** One more `Allocate`, on pool `p`, after the run `a`. */
  lemma AllocateAllSnoc(ms: Pools, a: seq<Pool>, p: Pool)
    ensures var (ms1, rs) := AllocateAll(ms, a);
      var (m, ptr) := if p in ms1 then AllocateSpec(ms1[p]) else (AllocModel([], 0), Null);
      AllocateAll(ms, a + [p]) == (ms1[p := m], rs + [Release(p, ptr)])
  {
    assert AllocateAll(ms, a + [p]) == AllocateLast(ms, a + [p]);
    assert (a + [p])[..|a|] == a;
  }

  /** Allocating along `a + b` is allocating along `a`, then along `b`. */
  lemma {:induction false} AllocateAllAppend(ms: Pools, a: seq<Pool>, b: seq<Pool>)
    ensures var (ms1, ra) := AllocateAll(ms, a);
      var (ms2, rb) := AllocateAll(ms1, b);
      AllocateAll(ms, a + b) == (ms2, ra + rb)
    decreases |b|
  {
    if b == [] {
      assert a + b == a;
      assert AllocateAll(ms, a).1 + [] == AllocateAll(ms, a).1;
    } else {
      var b', p := b[..|b| - 1], b[|b| - 1];
      assert b == b' + [p];
      assert a + b == (a + b') + [p];
      AllocateAllAppend(ms, a, b');
      var (ms1, ra) := AllocateAll(ms, a);
      var (msb, rb') := AllocateAll(ms1, b');
      AllocateAllSnoc(ms1, b', p);
      AllocateAllSnoc(ms, a + b', p);
      var (m, ptr) := if p in msb then AllocateSpec(msb[p]) else (AllocModel([], 0), Null);
      assert AllocateAll(ms1, b) == (msb[p := m], rb' + [Release(p, ptr)]);
      assert AllocateAll(ms, a + b) == (msb[p := m], ra + rb' + [Release(p, ptr)]);
      assert ra + rb' + [Release(p, ptr)] == ra + (rb' + [Release(p, ptr)]);
    }
  }

  /**
   * Allocating keeps the pools valid, hands out distinct slots none of which
   * was live, and makes exactly them live.
   */
  lemma {:induction false} AllocateAllGrows(ms: Pools, ps: seq<Pool>)
    requires PoolsValid(ms)
    ensures PoolsValid(AllocateAll(ms, ps).0)
    ensures Grown(ms, AllocateAll(ms, ps).0, AllocateAll(ms, ps).1)
  {
    if ps == [] {
      assert Grown(ms, ms, []);
    } else {
      var (ms1, rs) := AllocateAll(ms, ps[..|ps| - 1]);
      AllocateAllGrows(ms, ps[..|ps| - 1]);
      var p := ps[|ps| - 1];
      assert ps == ps[..|ps| - 1] + [p];
      AllocateAllSnoc(ms, ps[..|ps| - 1], p);
      AllocateInPool(ms1, p);
      var (m, ptr) := AllocateSpec(ms1[p]);
      assert Grown(ms1, ms1[p := m], [Release(p, ptr)]);
      GrownTrans(ms, ms1, ms1[p := m], rs, [Release(p, ptr)]);
    }
  }

  /** Appending a component appends its slots to the entity's. */
  lemma HoldingsAppend(addr: Ptr, cs: seq<ComponentBase>, c: ComponentBase)
    ensures EntityHoldings(EntityView(addr, cs + [c])) == EntityHoldings(EntityView(addr, cs)) + Holdings(c)
  {
    var cs' := cs + [c];
    assert cs'[..|cs'| - 1] == cs;
  }

  /** A component other than a particle emitter takes one slot, from its own pool. */
  lemma PlainSlotPools(kind: ComponentType)
    requires PoolOf(kind).Some? && kind != PARTICLE_EMITTER
    ensures SlotPools(kind) == [PoolOf(kind).value]
  {
  }

  /** A particle emitter component takes its own slot, then four particle emitters. */
  lemma EmitterSlotPools()
    ensures SlotPools(PARTICLE_EMITTER) == [ParticleEmitterPool] + [ParticlePool, ParticlePool, ParticlePool, ParticlePool]
  {
  }

  /** The pools of a component list extend by those of one more component. */
  lemma KindPoolsAppend(kinds: seq<ComponentType>, kind: ComponentType)
    ensures KindPools(kinds + [kind]) == KindPools(kinds) + SlotPools(kind)
  {
    assert (kinds + [kind])[..|kinds|] == kinds;
  }

  /** A component other than a particle emitter holds its own slot only. */
  lemma PlainHoldings(c: ComponentBase)
    requires PoolOf(c.kind).Some? && c.kind != PARTICLE_EMITTER
    ensures Holdings(c) == [Release(PoolOf(c.kind).value, c.addr)]
  {
  }

  /** A particle emitter component holds its own slot, then its left, right, left canon and right canon emitters. */
  lemma EmitterHoldings(c: ComponentBase)
    requires c.kind == PARTICLE_EMITTER
    ensures Holdings(c) == [Release(ParticleEmitterPool, c.addr)] +
      [Release(ParticlePool, c.emitterLeft), Release(ParticlePool, c.emitterRight),
       Release(ParticlePool, c.canonLeft), Release(ParticlePool, c.canonRight)]
  {
  }

  /** What creating an entity leaves behind: exactly the slots it holds have become live. */
  ghost predicate FreshlyHeld(e: EntityView, ms0: Pools, ms: Pools)
  {
    Grown(ms0, ms, EntityHoldings(e))
  }

  /** Two growth steps make one: the slots of the second were not live after the first. */
  lemma GrownTrans(ms0: Pools, ms1: Pools, ms2: Pools, a: seq<Release>, b: seq<Release>)
    requires Grown(ms0, ms1, a) && Grown(ms1, ms2, b)
    ensures Grown(ms0, ms2, a + b)
  {
    forall r | r in a
      ensures r !in b
    {
      assert LiveIn(ms1, r);
    }
    DistinctConcat(a, b);
  }

  /**
   * Destroying an entity right after creating it never throws, and leaves
   * live exactly what was live before creation plus the slots it held that
   * the destruction does not hand back.
   */
  lemma CreateThenDestroy(ms0: Pools, ms: Pools, e: EntityView, withNav: bool)
    requires PoolsValid(ms) && FreshlyHeld(e, ms0, ms)
    ensures ReleaseAll(ms, EntityReleases(e, withNav)).1 == Pass
    ensures forall r :: LiveIn(ReleaseAll(ms, EntityReleases(e, withNav)).0, r) <==>
      LiveIn(ms0, r) || (r in EntityHoldings(e) && r !in EntityReleases(e, withNav))
  {
    DestroyAfterCreate(ms, e, withNav);
    ReleasesWithinHoldings(e.components, withNav);
    forall r | r in EntityReleases(e, withNav)
      ensures r in EntityHoldings(e)
    {
      if r != Release(EntityPool, e.addr) {
        assert r in ComponentsReleases(e.components, withNav);
      }
    }
  }

  /**
   * For an entity with no particle emitter component, whose components all
   * have a branch in the chain, every slot it holds is handed back.  With
   * DestroyEntity's chain (no nav-node branch) a nav-node component's slot
   * is held but not handed back.
   */
  lemma {:induction false} ReleasesCoverHoldings(cs: seq<ComponentBase>, withNav: bool)
    requires forall c :: c in cs ==> c.kind != PARTICLE_EMITTER && ReleasePool(c.kind, withNav).Some?
    ensures forall r :: r in ComponentsHoldings(cs) ==> r in ComponentsReleases(cs, withNav)
  {
    if cs != [] {
      var init, c := cs[..|cs| - 1], cs[|cs| - 1];
      assert forall x :: x in init ==> x in cs;
      ReleasesCoverHoldings(init, withNav);
      assert Holdings(c) == ComponentReleases(c, withNav);
    }
  }

  /** DestroyEntity leaves a nav-node component's slot live: it is held but never handed back. */
  lemma NavNodeSlotLeaks(cs: seq<ComponentBase>, k: nat)
    requires k < |cs| && cs[k].kind == NAVNODE
    ensures Release(NavNodePool, cs[k].addr) in ComponentsHoldings(cs)
    ensures Release(NavNodePool, cs[k].addr) !in ComponentsReleases(cs, false)
  {
    DestroySkipsNavNodes(cs);
    HoldingIsHeld(cs, k);
  }

  /** Each component's own slot is among the component list's holdings. */
  lemma {:induction false} HoldingIsHeld(cs: seq<ComponentBase>, k: nat)
    requires k < |cs| && PoolOf(cs[k].kind).Some?
    ensures Release(PoolOf(cs[k].kind).value, cs[k].addr) in ComponentsHoldings(cs)
  {
    if k < |cs| - 1 {
      HoldingIsHeld(cs[..|cs| - 1], k);
    } else {
      assert Holdings(cs[k])[0] == Release(PoolOf(cs[k].kind).value, cs[k].addr);
    }
  }
}
