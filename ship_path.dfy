/**
 * The path-following bookkeeping of World::UpdateAiShip (world.h): how an
 * enemy ship's start-node flag, path, path index and arrival timer change
 * in one tick.  The float distance tests are the input `closeToTarget`
 * (the squared distance to the current target is at most 40).
 */
module ShipPath {
  import opened Entities

  /** Seconds a ship waits at a node before it moves on to the next. */
  const ArrivalDelay: real := 0.05

  /** The entity fields the bookkeeping reads and writes. */
  datatype PathState = PathState(
    reachedStart: bool,
    path: seq<Entity>,
    pathIndex: int,
    arrivalTimer: real,
    closestNodeCalled: bool)

  /** The path-following fields of an entity. */
  function PathStateOf(e: Entity): PathState
    reads e
  {
    PathState(e.hasReachedTheStartNode, e.path, e.pathIndex, e.nodeArrivalTimer, e.closestNodeCalled)
  }

  /**
   * `pathIndex < path.size()` with the int index converted to size_t, as the
   * source compares them: a negative index becomes a huge unsigned value and
   * is never below the size.
   */
  predicate IndexBelow(i: int, size: nat)
  {
    0 <= i < size
  }

  /**
   * One tick.  `requested` is the path findPath returns from the closest
   * node to a random destination; it is asked for only in the first branch.
     */
  function PathStep(s: PathState, closeToTarget: bool, dt: real, requested: seq<Entity>): PathState
  {
    if !s.reachedStart then
      if closeToTarget && s.path == [] then s.(reachedStart := true, path := requested)
      else s
    else if s.path != [] && IndexBelow(s.pathIndex, |s.path|) then
      if closeToTarget then
        var t := s.arrivalTimer + dt;
        if t >= ArrivalDelay then s.(pathIndex := s.pathIndex + 1, arrivalTimer := 0.0)
        else s.(arrivalTimer := t)
      else s
    else if !IndexBelow(s.pathIndex, |s.path|) then
      s.(closestNodeCalled := false, reachedStart := false, path := [], pathIndex := 0)
    else s
  }

  /**
   * The states a ship goes through from its initial one: until the start
   * node is reached there is no path and the index is 0; the index never
   * leaves 0..|path|; the timer is never negative.
   */
  ghost predicate Consistent(s: PathState)
  {
    && 0 <= s.pathIndex <= |s.path|
    && (!s.reachedStart ==> s.path == [] && s.pathIndex == 0)
    && s.arrivalTimer >= 0.0
  }

  // ---------------------------------------------------------------- lemmas

  /** The member initialisers of Entity give a consistent state. */
  lemma InitialConsistent(s: PathState)
    requires s == PathState(false, [], 0, 0.0, false)
    ensures Consistent(s)
  {
  }

  /** Every tick with a non-negative time step keeps the state consistent. */
  lemma StepKeepsConsistent(s: PathState, closeToTarget: bool, dt: real, requested: seq<Entity>)
    requires Consistent(s) && dt >= 0.0
    ensures Consistent(PathStep(s, closeToTarget, dt, requested))
  {
  }

  /**
   * Reaching the start node with no path sets the flag and installs the
   * requested path; before that, nothing changes.
   */
  lemma ReachingStartInstallsPath(s: PathState, closeToTarget: bool, dt: real, requested: seq<Entity>)
    requires !s.reachedStart
    ensures var s' := PathStep(s, closeToTarget, dt, requested);
      && (closeToTarget && s.path == [] ==> s'.reachedStart && s'.path == requested && s'.pathIndex == s.pathIndex)
      && (!(closeToTarget && s.path == []) ==> s' == s)
  {
  }

  /**
   * The index moves on by exactly one, only while the path is followed, only
   * close to the node and only once the timer reaches the delay; the timer
   * is then reset.  Otherwise it stays, or a completed path resets it to 0.
   */
  lemma IndexAdvancesAtMostOne(s: PathState, closeToTarget: bool, dt: real, requested: seq<Entity>)
    requires s.pathIndex >= 0
    ensures var s' := PathStep(s, closeToTarget, dt, requested);
      && (s'.pathIndex == s.pathIndex + 1 <==>
            s.reachedStart && s.path != [] && 0 <= s.pathIndex < |s.path| && closeToTarget && s.arrivalTimer + dt >= ArrivalDelay)
      && (s'.pathIndex == s.pathIndex + 1 ==> s'.arrivalTimer == 0.0 && s'.path == s.path)
      && (s'.pathIndex == s.pathIndex || s'.pathIndex == s.pathIndex + 1 || s'.pathIndex == 0)
  {
  }

  /** A completed path resets both flags, clears the path and sets the index to 0. */
  lemma CompletedPathResets(s: PathState, closeToTarget: bool, dt: real, requested: seq<Entity>)
    requires s.reachedStart && s.pathIndex >= |s.path|
    ensures PathStep(s, closeToTarget, dt, requested) ==
      s.(closestNodeCalled := false, reachedStart := false, path := [], pathIndex := 0)
  {
  }

  /**
   * Following a path of n nodes from index 0 takes n advancing ticks and one
   * resetting tick: after n + 1 ticks that each reach the delay, the ship is
   * back to looking for a start node.
   */
  lemma {:induction false} PathIsWalkedToTheEnd(s: PathState, dt: real, requested: seq<Entity>, n: nat)
    requires s.reachedStart && 0 <= s.pathIndex <= |s.path| && n == |s.path| - s.pathIndex && s.arrivalTimer >= 0.0
    requires dt >= ArrivalDelay
    ensures var s' := Walk(s, dt, requested, n + 1);
      !s'.reachedStart && s'.path == [] && s'.pathIndex == 0
    decreases n
  {
    if n == 0 {
      CompletedPathResets(s, true, dt, requested);
    } else {
      assert s.path != [];
      var s1 := PathStep(s, true, dt, requested);
      assert s1.reachedStart && s1.pathIndex == s.pathIndex + 1 && s1.path == s.path;
      PathIsWalkedToTheEnd(s1, dt, requested, n - 1);
    }
  }

  /**
   * The path part of UpdateAiShip on an entity: its flags, path, index and
   * timer become what PathStep gives, and no other field changes.
   */
  method UpdatePathState(e: Entity, closeToTarget: bool, dt: real, requested: seq<Entity>)
    modifies e`hasReachedTheStartNode, e`path, e`pathIndex, e`nodeArrivalTimer, e`closestNodeCalled
    ensures PathStateOf(e) == PathStep(old(PathStateOf(e)), closeToTarget, dt, requested)
  {
    if !e.hasReachedTheStartNode {
      if closeToTarget && |e.path| == 0 {
        e.hasReachedTheStartNode := true;
        e.path := requested;
      }
    } else if |e.path| != 0 && IndexBelow(e.pathIndex, |e.path|) {
      if closeToTarget {
        e.nodeArrivalTimer := e.nodeArrivalTimer + dt;
        if e.nodeArrivalTimer >= ArrivalDelay {
          e.pathIndex := e.pathIndex + 1;
          e.nodeArrivalTimer := 0.0;
        }
      }
    } else if !IndexBelow(e.pathIndex, |e.path|) {
      e.closestNodeCalled := false;
      e.hasReachedTheStartNode := false;
      e.path := [];
      e.pathIndex := 0;
    }
  }

  /** `ticks` ticks of PathStep, each close to its target. */
  function Walk(s: PathState, dt: real, requested: seq<Entity>, ticks: nat): PathState
    decreases ticks
  {
    if ticks == 0 then s else Walk(PathStep(s, true, dt, requested), dt, requested, ticks - 1)
  }
}
