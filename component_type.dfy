/**
 * The component kinds of componentType.h.  Every kind but NONE is a single
 * bit of a 32-bit mask; entities test and clear these bits on their
 * components' masks.
 */
module ComponentTypes {

  datatype ComponentType =
    | NONE
    | TRANSFORM
    | RIGIDBODY
    | COLLIDER
    | CAMERA
    | FORCE
    | RENDERABLE
    | INPUT
    | PARTICLE_EMITTER
    | NAVNODE
    | AI_CONTROLLER

  /** The enum's underlying uint32 value, as written in the enum declaration. */
  function Value(t: ComponentType): bv32
  {
    match t
    case NONE => 0
    case TRANSFORM => 1 << 0
    case RIGIDBODY => 1 << 1
    case COLLIDER => 1 << 2
    case CAMERA => 1 << 3
    case FORCE => 1 << 4
    case RENDERABLE => 1 << 5
    case INPUT => 1 << 6
    case PARTICLE_EMITTER => 1 << 7
    case NAVNODE => 1 << 8
    case AI_CONTROLLER => 1 << 9
  }

  /** Declaration order of the non-NONE kinds, 0 for TRANSFORM up to 9 for AI_CONTROLLER. */
  function Ordinal(t: ComponentType): (i: nat)
    requires t != NONE
    ensures i < 10
  {
    match t
    case TRANSFORM => 0
    case RIGIDBODY => 1
    case COLLIDER => 2
    case CAMERA => 3
    case FORCE => 4
    case RENDERABLE => 5
    case INPUT => 6
    case PARTICLE_EMITTER => 7
    case NAVNODE => 8
    case AI_CONTROLLER => 9
  }

  /** The bit test `mask & type` used by RemoveComponent and HasComponent. */
  predicate Tests(mask: bv32, t: ComponentType)
  {
    mask & Value(t) != 0
  }

  /** NONE is 0, so a bit test against it never succeeds. */
  lemma NoneNeverTests(mask: bv32)
    ensures !Tests(mask, NONE)
  {
  }

  /** The ten kinds are exactly the powers 1 << 0 through 1 << 9, in declaration order. */
  lemma KindIsPowerOfTwo(t: ComponentType)
    requires t != NONE
    ensures Value(t) == 1 << Ordinal(t)
    ensures Value(t) != 0 && Value(t) & (Value(t) - 1) == 0
  {
  }

  /** Kind and mask value determine each other: distinct kinds have distinct values. */
  lemma ValueInjective(a: ComponentType, b: ComponentType)
    requires Value(a) == Value(b)
    ensures a == b
  {
  }

  /** Distinct kinds occupy disjoint bits. */
  lemma KindsDisjoint(a: ComponentType, b: ComponentType)
    requires a != b
    ensures Value(a) & Value(b) == 0
  {
  }

  /** OR-ing a kind into a mask makes that kind test true and leaves every other kind's test as it was. */
  lemma OrSetsOnlyItsKind(mask: bv32, a: ComponentType, b: ComponentType)
    ensures a != NONE ==> Tests(mask | Value(a), a)
    ensures a != b ==> (Tests(mask | Value(a), b) <==> Tests(mask, b))
  {
  }

  /** Clearing a kind's bit makes its test false. */
  lemma ClearRemovesItsKind(mask: bv32, a: ComponentType)
    ensures !Tests(mask & !Value(a), a)
  {
    ClearClearsBits(mask, Value(a));
  }

  /** Clearing a kind's bit leaves every other kind's test as it was. */
  lemma ClearKeepsOtherKinds(mask: bv32, a: ComponentType, b: ComponentType)
    requires a != b
    ensures Tests(mask & !Value(a), b) <==> Tests(mask, b)
  {
    var va, vb := Value(a), Value(b);
    KindsDisjoint(a, b);
    ClearKeepsOtherBits(mask, va, vb);
    assert (mask & !va) & vb == mask & vb;
  }

  lemma ClearClearsBits(mask: bv32, v: bv32)
    ensures (mask & !v) & v == 0
  {
  }

  lemma ClearKeepsOtherBits(mask: bv32, v: bv32, w: bv32)
    requires v & w == 0
    ensures (mask & !v) & w == mask & w
  {
  }
}
