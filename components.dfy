/**
 * ComponentBase of componentBase.h, together with the few fields of the
 * concrete component classes that the entity layer reads or writes.
 *
 * The concrete class of a component (TransformComponent, NavNode, ...) is
 * the constant `kind`; it stands for the dynamic type that `dynamic_cast`
 * inspects in GetComponent, DestroyEntity and Cleanup.
 */
module Components {
  import opened Wrappers
  import opened ComponentTypes
  import opened ChunkAllocation

  /** A lattice position standing for the translation column `transform[3]` of a TransformComponent. */
  datatype Pos = Pos(x: int, y: int, z: int)

  /**
   * The component classes whose slots `new(obj) T()` value-initialises:
   * those without a user-provided default constructor (TransformComponent,
   * RigidBodyComponent, CameraComponent, ContinuousForceComponent,
   * ParticleEmitterComponent).  ColliderComponent, RenderableComponent and
   * PlayerInputComponent declare an empty one, and the navigation-node and
   * AI-controller classes are not part of this model, so their
   * `ownerId` and `componentMask` are left arbitrary.
   */
  predicate ValueInitialised(kind: ComponentType)
  {
    kind == TRANSFORM || kind == RIGIDBODY || kind == CAMERA || kind == FORCE || kind == PARTICLE_EMITTER
  }

  class ComponentBase {
    /** Concrete class of the component. */
    const kind: ComponentType
    /** Slot of the component in its allocator. */
    const addr: Ptr
    var ownerId: uint32
    var componentMask: bv32
    /** TransformComponent: position of the transform. */
    var position: Pos
    /**
     * ParticleEmitterComponent: the four emitters it owns, allocated from the
     * particle pool (left, right, left canon, right canon); Null for every
     * other class.
     */
    const emitterLeft: Ptr
    const emitterRight: Ptr
    const canonLeft: Ptr
    const canonRight: Ptr

    /**
     * A component constructed in its allocator slot by `new(obj) T(args...)`.
     * `ownerId` and `componentMask` have no initialiser: for a class without a
     * user-provided default constructor, value-initialisation zeroes them;
     * for the others they keep an arbitrary value.  The transform starts as
     * the identity matrix (translation 0) and emitter pointers start as nullptr.
     */
    constructor (kind: ComponentType, addr: Ptr)
      requires kind != NONE
      ensures this.kind == kind && this.addr == addr
      ensures ValueInitialised(kind) ==> ownerId == 0 && componentMask == 0
      ensures position == Pos(0, 0, 0)
      ensures emitterLeft == Null && emitterRight == Null && canonLeft == Null && canonRight == Null
    {
      this.kind := kind;
      this.addr := addr;
      if ValueInitialised(kind) {
        ownerId, componentMask := 0, 0;
      } else {
        var owner: uint32 :| true;
        var mask: bv32 :| true;
        ownerId, componentMask := owner, mask;
      }
      position := Pos(0, 0, 0);
      emitterLeft, emitterRight, canonLeft, canonRight := Null, Null, Null, Null;
    }

    /**
     * A ParticleEmitterComponent in its allocator slot, together with the
     * four emitters its creator allocates for it right after attaching it.
     * The class has no user-provided constructor, so `ownerId` and
     * `componentMask` start zeroed.
     */
    constructor Emitter(addr: Ptr, left: Ptr, right: Ptr, leftCanon: Ptr, rightCanon: Ptr)
      ensures kind == PARTICLE_EMITTER && this.addr == addr
      ensures ownerId == 0 && componentMask == 0
      ensures position == Pos(0, 0, 0)
      ensures emitterLeft == left && emitterRight == right && canonLeft == leftCanon && canonRight == rightCanon
    {
      kind := PARTICLE_EMITTER;
      this.addr := addr;
      ownerId, componentMask := 0, 0;
      position := Pos(0, 0, 0);
      emitterLeft, emitterRight, canonLeft, canonRight := left, right, leftCanon, rightCanon;
    }

    /** The id of the owning entity, as last recorded by SetOwner. */
    function GetOwner(): (o: uint32)
      reads this`ownerId
      ensures o == ownerId
    {
      ownerId
    }

    /** SetOwner records the owning entity and touches nothing else (the mask is kept). */
    method SetOwner(entityId: uint32)
      modifies this`ownerId
      ensures GetOwner() == entityId
      ensures componentMask == old(componentMask)
    {
      ownerId := entityId;
    }
  }

  /** Index of the first component whose class is `t`, or |cs| when there is none. */
  function FirstOfKind(cs: seq<ComponentBase>, t: ComponentType): (k: nat)
    ensures k <= |cs|
    ensures k < |cs| ==> cs[k].kind == t
    ensures forall j :: 0 <= j < k ==> cs[j].kind != t
  {
    if cs == [] then 0 else if cs[0].kind == t then 0 else 1 + FirstOfKind(cs[1..], t)
  }

  /** The masks of a component list, in list order. */
  function Masks(cs: seq<ComponentBase>): (ms: seq<bv32>)
    reads cs`componentMask
    ensures |ms| == |cs| && forall j :: 0 <= j < |cs| ==> ms[j] == cs[j].componentMask
  {
    if cs == [] then [] else [cs[0].componentMask] + Masks(cs[1..])
  }

  /** Index of the first mask that tests positive for `t`, or |ms| when there is none. */
  function FirstTesting(ms: seq<bv32>, t: ComponentType): (k: nat)
    ensures k <= |ms|
    ensures k < |ms| ==> Tests(ms[k], t)
    ensures forall j :: 0 <= j < k ==> !Tests(ms[j], t)
  {
    if ms == [] then 0 else if Tests(ms[0], t) then 0 else 1 + FirstTesting(ms[1..], t)
  }

  /** Nothing ever tests positive for NONE, so removing NONE finds no component. */
  lemma FirstTestingNone(ms: seq<bv32>)
    ensures FirstTesting(ms, NONE) == |ms|
  {
    forall j | 0 <= j < |ms|
      ensures !Tests(ms[j], NONE)
    {
      NoneNeverTests(ms[j]);
    }
  }
}
