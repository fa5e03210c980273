/** PhysicsId of physicsid.h: a collider handle made of a slot index and a generation counter. */
module PhysicsIds {
  import opened Wrappers

  datatype PhysicsId = PhysicsId(index: uint32, generation: uint32)

  /** operator==: both fields agree, which is exactly equality of the two handles. */
  predicate Equal(a: PhysicsId, b: PhysicsId): (r: bool)
    ensures r <==> a == b
  {
    a.index == b.index && a.generation == b.generation
  }

  /** operator!=: the negation of operator==. */
  predicate NotEqual(a: PhysicsId, b: PhysicsId): (r: bool)
    ensures r <==> a != b
    ensures r <==> !Equal(a, b)
  {
    !Equal(a, b)
  }

  /** operator== is an equivalence relation. */
  lemma EqualIsEquivalence(a: PhysicsId, b: PhysicsId, c: PhysicsId)
    ensures Equal(a, a)
    ensures Equal(a, b) ==> Equal(b, a)
    ensures Equal(a, b) && Equal(b, c) ==> Equal(a, c)
  {
  }
}
