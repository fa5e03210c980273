/**
 * The navigation lattice behind PureEntityData::getNeighbors: node ids are
 * linear indices into an S x S x S grid, and a node's neighbours are found by
 * scanning the 26 surrounding offsets.  Everything here is a pure function of
 * the node id, S and the set of ids registered in `gridNodes`.
 */
module NavGrid {
  import opened Wrappers

  /** A lattice cell (x, y, z); also used for offsets. */
  datatype Cell = Cell(x: int, y: int, z: int)


  predicate InGrid(c: Cell, s: int)
  {
    0 <= c.x < s && 0 <= c.y < s && 0 <= c.z < s
  }

  /** Linear id of a cell: x + y*S + z*S*S. */
  function Encode(c: Cell, s: int): int
  {
    c.x + c.y * s + c.z * s * s
  }

  /** Lattice cell of a linear id: x = id % S, y = (id / S) % S, z = id / (S*S). */
  function Decode(id: int, s: int): (c: Cell)
    requires s > 0
  {
    Cell(id % s, (id / s) % s, id / (s * s))
  }

  function Add(c: Cell, d: Cell): Cell
  {
    Cell(c.x + d.x, c.y + d.y, c.z + d.z)
  }

  /** The offset visited at step k of the triple loop: dx outermost, then dy, then dz, each from -1 to 1. */
  function Offset(k: nat): (d: Cell)
    requires k < 27
    ensures -1 <= d.x <= 1 && -1 <= d.y <= 1 && -1 <= d.z <= 1
  {
    var dx := if k < 9 then -1 else if k < 18 then 0 else 1;
    var r := k - 9 * (dx + 1);
    var dy := if r < 3 then -1 else if r < 6 then 0 else 1;
    Cell(dx, dy, r - 3 * (dy + 1) - 1)
  }

  /** The loop step at which offset d is visited. */
  function OffsetIndex(d: Cell): int
  {
    (d.x + 1) * 9 + (d.y + 1) * 3 + (d.z + 1)
  }

  predicate IsUnitOffset(d: Cell)
  {
    -1 <= d.x <= 1 && -1 <= d.y <= 1 && -1 <= d.z <= 1
  }

  /** More than one axis moves. */
  predicate IsDiagonal(d: Cell)
  {
    Abs(d.x) + Abs(d.y) + Abs(d.z) > 1
  }

  /** The three single-axis steps of a move from c by d are registered (a zero component names c itself). */
  predicate StepsPresent(keys: set<int>, s: int, c: Cell, d: Cell)
  {
    && Encode(Cell(c.x + d.x, c.y, c.z), s) in keys
    && Encode(Cell(c.x, c.y + d.y, c.z), s) in keys
    && Encode(Cell(c.x, c.y, c.z + d.z), s) in keys
  }

  /** What step k of the scan contributes for the node in cell c. */
  function Candidate(keys: set<int>, s: int, c: Cell, k: nat): Option<int>
    requires s > 0 && k < 27
  {
    NeighborAt(keys, s, c, Offset(k))
  }

  /**
   * The body of the scan for offset d from cell c: the neighbour id when the
   * offset is not zero, stays inside the grid, names a registered node and,
   * for a diagonal, has all single-axis steps registered; None when the body
   * `continue`s.
   */
  function NeighborAt(keys: set<int>, s: int, c: Cell, d: Cell): Option<int>
    requires s > 0
  {
    var n := Add(c, d);
    if d == Cell(0, 0, 0) then None
    else if !InGrid(n, s) then None
    else
      var nid := Encode(n, s);
      if nid < 0 || nid > s * s * s - 1 then None
      else if nid !in keys then None
      else if IsDiagonal(d) && !StepsPresent(keys, s, c, d) then None
      else Some(nid)
  }

  /** The ids the scan from cell c has pushed after its first `upto` steps, in push order. */
  function NeighborIds(keys: set<int>, s: int, c: Cell, upto: nat): seq<int>
    requires s > 0 && upto <= 27
  {
    if upto == 0 then []
    else
      NeighborIds(keys, s, c, upto - 1) +
        match Candidate(keys, s, c, upto - 1)
        case Some(v) => [v]
        case None => []
  }

  /** The neighbour ids getNeighbors returns for node `id`. */
  function Neighbors(keys: set<int>, s: int, id: int): seq<int>
    requires s > 0
  {
    NeighborIds(keys, s, Decode(id, s), 27)
  }

  // ------------------------------------------------------------ arithmetic

  lemma MulLeq(a: int, b: int, d: int)
    requires a <= b && d >= 0
    ensures a * d <= b * d
  {
    assert b * d - a * d == (b - a) * d;
  }

  /** Quotient and remainder are unique (Euclidean division). */
  lemma DivModUnique(n: int, d: int, q: int, r: int)
    requires d > 0 && 0 <= r < d && n == q * d + r
    ensures n / d == q && n % d == r
  {
    var q0, r0 := n / d, n % d;
    assert n == q0 * d + r0;
    if q0 < q {
      assert (q0 + 1) * d == q0 * d + d;
      MulLeq(q0 + 1, q, d);
    } else if q < q0 {
      assert (q + 1) * d == q * d + d;
      MulLeq(q + 1, q0, d);
    }
  }

  /** x + y*S lies in [0, S*S) for x, y in [0, S). */
  lemma LowDigitsBound(x: int, y: int, s: int)
    requires s > 0 && 0 <= x < s && 0 <= y < s
    ensures 0 <= x + y * s < s * s
  {
    MulLeq(0, y, s);
    MulLeq(y, s - 1, s);
    assert (s - 1) * s == s * s - s;
  }

  /** The two ways of grouping the linear id. */
  lemma EncodeShapes(c: Cell, s: int)
    ensures Encode(c, s) == (c.y + c.z * s) * s + c.x
    ensures Encode(c, s) == c.z * (s * s) + (c.x + c.y * s)
  {
    assert (c.y + c.z * s) * s == c.y * s + c.z * s * s;
    assert c.z * s * s == c.z * (s * s);
  }

  /** Decoding the id of an in-grid cell gives back the cell. */
  lemma DecodeEncode(c: Cell, s: int)
    requires s > 0 && InGrid(c, s)
    ensures Decode(Encode(c, s), s) == c
  {
    var n := Encode(c, s);
    EncodeShapes(c, s);
    DivModUnique(n, s, c.y + c.z * s, c.x);
    DivModUnique(c.y + c.z * s, s, c.z, c.y);
    LowDigitsBound(c.x, c.y, s);
    DivModUnique(n, s * s, c.z, c.x + c.y * s);
  }

  /** Encoding the cell of a non-negative id gives back the id. */
  lemma EncodeDecode(id: int, s: int)
    requires s > 0 && id >= 0
    ensures Encode(Decode(id, s), s) == id
  {
    var x, q := id % s, id / s;
    var y, z := q % s, q / s;
    assert id == q * s + x;
    assert q == z * s + y;
    assert id == (y + z * s) * s + x;
    EncodeShapes(Cell(x, y, z), s);
    LowDigitsBound(x, y, s);
    DivModUnique(id, s * s, z, x + y * s);
  }

  /** The cell of a non-negative id has x and y inside the grid and z >= 0; it is in the grid exactly when id < S^3. */
  lemma DecodeRange(id: int, s: int)
    requires s > 0 && id >= 0
    ensures var c := Decode(id, s); 0 <= c.x < s && 0 <= c.y < s && c.z >= 0
    ensures InGrid(Decode(id, s), s) <==> id < s * s * s
  {
    var c := Decode(id, s);
    EncodeDecode(id, s);
    EncodeShapes(c, s);
    LowDigitsBound(c.x, c.y, s);
    assert s * s * s == s * (s * s);
    if c.z >= s {
      MulLeq(s, c.z, s * s);
    } else {
      MulLeq(c.z, s - 1, s * s);
      assert (s - 1) * (s * s) == s * (s * s) - s * s;
    }
  }

  /** An in-grid cell's id lies in [0, S^3 - 1]: the `neighborID > maxID` test never fires. */
  lemma EncodeInRange(c: Cell, s: int)
    requires s > 0 && InGrid(c, s)
    ensures 0 <= Encode(c, s) <= s * s * s - 1
  {
    EncodeShapes(c, s);
    LowDigitsBound(c.x, c.y, s);
    MulLeq(0, c.z, s * s);
    MulLeq(c.z, s - 1, s * s);
    assert (s - 1) * (s * s) == s * s * s - s * s;
  }

  /** Offset and OffsetIndex are inverse on the 27 unit offsets. */
  lemma OffsetRoundTrip(k: nat, d: Cell)
    requires k < 27 && IsUnitOffset(d)
    ensures OffsetIndex(Offset(k)) == k
    ensures 0 <= OffsetIndex(d) < 27 && Offset(OffsetIndex(d)) == d
  {
  }

  // ------------------------------------------------------------ neighbours

  /** One step of the scan: offset d, visited at step k, appends what NeighborAt finds for it. */
  lemma NeighborIdsStep(keys: set<int>, s: int, c: Cell, d: Cell)
    requires s > 0 && IsUnitOffset(d)
    ensures 0 <= OffsetIndex(d) < 27
    ensures NeighborIds(keys, s, c, OffsetIndex(d) + 1) ==
      NeighborIds(keys, s, c, OffsetIndex(d)) + match NeighborAt(keys, s, c, d) case Some(v) => [v] case None => []
  {
    OffsetRoundTrip(0, d);
  }

  function Sub(a: Cell, b: Cell): Cell
  {
    Cell(a.x - b.x, a.y - b.y, a.z - b.z)
  }

  /** Two distinct cells that differ by at most 1 on every axis. */
  predicate Adjacent(a: Cell, b: Cell)
  {
    a != b && IsUnitOffset(Sub(b, a))
  }

  /** The offset between adjacent cells is a non-zero unit offset that leads from one to the other. */
  lemma AdjacentOffset(c: Cell, n: Cell)
    requires Adjacent(c, n)
    ensures Sub(n, c) != Cell(0, 0, 0) && IsUnitOffset(Sub(n, c)) && Add(c, Sub(n, c)) == n
  {
  }

  /** An id is pushed by the first `upto` steps exactly when one of those steps yields it. */
  lemma {:induction false} NeighborIdsMembership(keys: set<int>, s: int, c: Cell, upto: nat, v: int)
    requires s > 0 && upto <= 27
    ensures v in NeighborIds(keys, s, c, upto) <==> exists k :: 0 <= k < upto && Candidate(keys, s, c, k) == Some(v)
  {
    if upto > 0 {
      NeighborIdsMembership(keys, s, c, upto - 1, v);
    }
  }

  /** What a step that yields an id says about it: registered, in range, and the id of the in-grid cell reached by the step's offset. */
  lemma CandidateFacts(keys: set<int>, s: int, c: Cell, k: nat)
    requires s > 0 && k < 27 && Candidate(keys, s, c, k).Some?
    ensures var v := Candidate(keys, s, c, k).value;
      && v in keys && 0 <= v <= s * s * s - 1
      && v == Encode(Add(c, Offset(k)), s) && InGrid(Add(c, Offset(k)), s)
      && Offset(k) != Cell(0, 0, 0)
  {
  }

  /** Distinct in-grid cells have distinct ids. */
  lemma EncodeInjective(a: Cell, b: Cell, s: int)
    requires s > 0 && InGrid(a, s) && InGrid(b, s) && Encode(a, s) == Encode(b, s)
    ensures a == b
  {
    DecodeEncode(a, s);
    DecodeEncode(b, s);
  }

  /** A step yields a cell different from c that is adjacent to it. */
  lemma OffsetStepAdjacent(c: Cell, k: nat)
    requires k < 27 && Offset(k) != Cell(0, 0, 0)
    ensures Adjacent(c, Add(c, Offset(k)))
  {
  }

  /**
   * Every id getNeighbors returns is registered, lies in [0, S^3 - 1], is not
   * the node itself, and its cell is adjacent to the node's cell.
   */
  lemma NeighborsSound(keys: set<int>, s: int, id: int)
    requires s > 0 && id >= 0
    ensures forall v :: v in Neighbors(keys, s, id) ==>
      && v in keys && 0 <= v <= s * s * s - 1 && v != id
      && InGrid(Decode(v, s), s) && Adjacent(Decode(id, s), Decode(v, s))
  {
    var c := Decode(id, s);
    DecodeRange(id, s);
    EncodeDecode(id, s);
    forall v | v in Neighbors(keys, s, id)
      ensures v in keys && 0 <= v <= s * s * s - 1 && v != id
      ensures InGrid(Decode(v, s), s) && Adjacent(c, Decode(v, s))
    {
      NeighborIdsMembership(keys, s, c, 27, v);
      var k :| 0 <= k < 27 && Candidate(keys, s, c, k) == Some(v);
      CandidateFacts(keys, s, c, k);
      DecodeEncode(Add(c, Offset(k)), s);
      OffsetStepAdjacent(c, k);
    }
  }

  /** Step 13 is the zero offset, which is skipped, so fewer than `upto` ids come back once it has passed. */
  lemma {:induction false} NeighborIdsLength(keys: set<int>, s: int, c: Cell, upto: nat)
    requires s > 0 && upto <= 27
    ensures |NeighborIds(keys, s, c, upto)| <= upto - (if upto > 13 then 1 else 0)
  {
    if upto > 0 {
      NeighborIdsLength(keys, s, c, upto - 1);
      if upto - 1 == 13 {
        assert Offset(13) == Cell(0, 0, 0);
      }
    }
  }

  /** getNeighbors returns at most 26 ids. */
  lemma NeighborsAtMost26(keys: set<int>, s: int, id: int)
    requires s > 0
    ensures |Neighbors(keys, s, id)| <= 26
  {
    NeighborIdsLength(keys, s, Decode(id, s), 27);
  }

  /** The scan body for the offset from c to an adjacent in-grid cell n yields n's id exactly under the source's tests. */
  lemma NeighborAtAdjacent(keys: set<int>, s: int, c: Cell, n: Cell)
    requires s > 0 && InGrid(n, s) && Adjacent(c, n)
    ensures var d := Sub(n, c);
      NeighborAt(keys, s, c, d) ==
        if Encode(n, s) in keys && (!IsDiagonal(d) || StepsPresent(keys, s, c, d)) then Some(Encode(n, s)) else None
  {
    AdjacentOffset(c, n);
    EncodeInRange(n, s);
  }

  /** Two steps never yield the same id. */
  lemma CandidateInjective(keys: set<int>, s: int, c: Cell, k1: nat, k2: nat)
    requires s > 0 && k1 < 27 && k2 < 27
    requires Candidate(keys, s, c, k1).Some? && Candidate(keys, s, c, k1) == Candidate(keys, s, c, k2)
    ensures k1 == k2
  {
    CandidateFacts(keys, s, c, k1);
    CandidateFacts(keys, s, c, k2);
    EncodeInjective(Add(c, Offset(k1)), Add(c, Offset(k2)), s);
    assert Offset(k1) == Offset(k2);
    OffsetRoundTrip(k1, Offset(k1));
    OffsetRoundTrip(k2, Offset(k2));
  }

  /** Scan from cell c: an adjacent in-grid cell is pushed exactly when the scan body for its offset yields it. */
  lemma NeighborIdsComplete(keys: set<int>, s: int, c: Cell, n: Cell)
    requires s > 0 && InGrid(n, s) && Adjacent(c, n)
    ensures Encode(n, s) in NeighborIds(keys, s, c, 27) <==> NeighborAt(keys, s, c, Sub(n, c)) == Some(Encode(n, s))
  {
    var d := Sub(n, c);
    AdjacentOffset(c, n);
    OffsetRoundTrip(0, d);
    assert Candidate(keys, s, c, OffsetIndex(d)) == NeighborAt(keys, s, c, d);
    NeighborIdsMembership(keys, s, c, 27, Encode(n, s));
    if Encode(n, s) in NeighborIds(keys, s, c, 27) {
      var k' :| 0 <= k' < 27 && Candidate(keys, s, c, k') == Some(Encode(n, s));
      CandidateFacts(keys, s, c, k');
      EncodeInjective(n, Add(c, Offset(k')), s);
      assert Offset(k') == d;
    }
  }

  /**
   * Exactly which adjacent cells are returned: an in-grid cell n adjacent to
   * the node's cell c is returned exactly when its id is registered and, for
   * a diagonal move, the three single-axis steps from c are registered too
   * (two-axis intermediate cells of a three-axis move are not consulted).
   * An axis-aligned neighbour is therefore returned exactly when present.
   */
  lemma NeighborsComplete(keys: set<int>, s: int, id: int, n: Cell)
    requires s > 0 && InGrid(n, s) && Adjacent(Decode(id, s), n)
    ensures var c := Decode(id, s); var d := Sub(n, c);
      Encode(n, s) in Neighbors(keys, s, id) <==>
        Encode(n, s) in keys && (!IsDiagonal(d) || StepsPresent(keys, s, c, d))
  {
    var c := Decode(id, s);
    NeighborIdsComplete(keys, s, c, n);
    NeighborAtAdjacent(keys, s, c, n);
  }

  /** The loop steps that pushed an id, in push order. */
  function NeighborSteps(keys: set<int>, s: int, c: Cell, upto: nat): seq<nat>
    requires s > 0 && upto <= 27
  {
    if upto == 0 then []
    else NeighborSteps(keys, s, c, upto - 1) + if Candidate(keys, s, c, upto - 1).Some? then [upto - 1] else []
  }

  /**
   * Ids come back in loop order (dx outermost, then dy, then dz, each
   * ascending from -1 to 1): the i-th id was pushed at the i-th of a strictly
   * increasing sequence of loop steps.
   */
  lemma {:induction false} NeighborIdsInLoopOrder(keys: set<int>, s: int, c: Cell, upto: nat)
    requires s > 0 && upto <= 27
    ensures var r := NeighborIds(keys, s, c, upto); var ks := NeighborSteps(keys, s, c, upto);
      && |ks| == |r|
      && (forall i :: 0 <= i < |r| ==> ks[i] < upto && Candidate(keys, s, c, ks[i]) == Some(r[i]))
      && (forall i, j :: 0 <= i < j < |r| ==> ks[i] < ks[j])
  {
    if upto > 0 {
      NeighborIdsInLoopOrder(keys, s, c, upto - 1);
    }
  }

  /** getNeighbors returns each id at most once. */
  lemma NeighborsDistinct(keys: set<int>, s: int, id: int)
    requires s > 0
    ensures var r := Neighbors(keys, s, id); forall i, j :: 0 <= i < j < |r| ==> r[i] != r[j]
  {
    var c := Decode(id, s);
    var r := Neighbors(keys, s, id);
    var ks := NeighborSteps(keys, s, c, 27);
    NeighborIdsInLoopOrder(keys, s, c, 27);
    forall i, j | 0 <= i < j < |r|
      ensures r[i] != r[j]
    {
      if r[i] == r[j] {
        CandidateInjective(keys, s, c, ks[i], ks[j]);
      }
    }
  }

  // ------------------------------------------------------------ full grid

  /** Every id of the S^3 lattice is registered. */
  ghost predicate FullGrid(keys: set<int>, s: int)
  {
    forall v :: 0 <= v < s * s * s ==> v in keys
  }

  /** On a fully populated grid, v is a neighbour of u exactly when their cells are adjacent. */
  lemma FullGridNeighbors(keys: set<int>, s: int, u: int, v: int)
    requires s > 0 && FullGrid(keys, s) && 0 <= u < s * s * s && 0 <= v < s * s * s
    ensures v in Neighbors(keys, s, u) <==> Adjacent(Decode(u, s), Decode(v, s))
  {
    NeighborsSound(keys, s, u);
    var c, n := Decode(u, s), Decode(v, s);
    DecodeRange(u, s);
    DecodeRange(v, s);
    if Adjacent(c, n) {
      EncodeDecode(v, s);
      var d := Sub(n, c);
      EncodeInRange(Cell(c.x + d.x, c.y, c.z), s);
      EncodeInRange(Cell(c.x, c.y + d.y, c.z), s);
      EncodeInRange(Cell(c.x, c.y, c.z + d.z), s);
      NeighborsComplete(keys, s, u, n);
    }
  }

  /** On a fully populated grid the neighbour relation is symmetric. */
  lemma FullGridSymmetric(keys: set<int>, s: int, u: int, v: int)
    requires s > 0 && FullGrid(keys, s) && 0 <= u < s * s * s && 0 <= v < s * s * s
    ensures v in Neighbors(keys, s, u) <==> u in Neighbors(keys, s, v)
  {
    FullGridNeighbors(keys, s, u, v);
    FullGridNeighbors(keys, s, v, u);
  }

  /** On a full grid, every non-zero step from a cell whose neighbours all lie in the grid yields a neighbour. */
  lemma FullGridStepYields(keys: set<int>, s: int, c: Cell, k: nat)
    requires s > 0 && FullGrid(keys, s) && InGrid(c, s) && k < 27 && Offset(k) != Cell(0, 0, 0)
    requires InGrid(Add(c, Offset(k)), s)
    ensures Candidate(keys, s, c, k).Some?
  {
    var d := Offset(k);
    EncodeInRange(Add(c, d), s);
    EncodeInRange(Cell(c.x + d.x, c.y, c.z), s);
    EncodeInRange(Cell(c.x, c.y + d.y, c.z), s);
    EncodeInRange(Cell(c.x, c.y, c.z + d.z), s);
  }

  /** On a full grid with S >= 3, every step but the zero offset yields a neighbour of an interior cell. */
  lemma {:induction false} InteriorCount(keys: set<int>, s: int, c: Cell, upto: nat)
    requires s >= 3 && FullGrid(keys, s) && upto <= 27
    requires 1 <= c.x <= s - 2 && 1 <= c.y <= s - 2 && 1 <= c.z <= s - 2
    ensures |NeighborIds(keys, s, c, upto)| == upto - (if upto > 13 then 1 else 0)
  {
    if upto > 0 {
      InteriorCount(keys, s, c, upto - 1);
      var k := upto - 1;
      OffsetRoundTrip(k, Offset(k));
      if k != 13 {
        FullGridStepYields(keys, s, c, k);
      }
    }
  }

  /** On a fully populated grid with S >= 3, a node strictly inside the grid has 26 neighbours. */
  lemma FullGridInteriorHas26(keys: set<int>, s: int, id: int)
    requires s >= 3 && FullGrid(keys, s)
    requires var c := Decode(id, s); 1 <= c.x <= s - 2 && 1 <= c.y <= s - 2 && 1 <= c.z <= s - 2
    ensures |Neighbors(keys, s, id)| == 26
  {
    InteriorCount(keys, s, Decode(id, s), 27);
  }

  /** A step whose offset leads from the corner (0, 0, 0) into the grid, other than the zero offset. */
  predicate IsCornerStep(k: nat)
    requires k < 27
  {
    var d := Offset(k);
    d != Cell(0, 0, 0) && d.x >= 0 && d.y >= 0 && d.z >= 0
  }

  /** Number of corner steps among the first `upto` steps. */
  function CornerSteps(upto: nat): nat
    requires upto <= 27
  {
    if upto == 0 then 0 else CornerSteps(upto - 1) + if IsCornerStep(upto - 1) then 1 else 0
  }

  lemma {:induction false} CornerCount(keys: set<int>, s: int, upto: nat)
    requires s >= 2 && FullGrid(keys, s) && upto <= 27
    ensures |NeighborIds(keys, s, Cell(0, 0, 0), upto)| == CornerSteps(upto)
  {
    if upto > 0 {
      CornerCount(keys, s, upto - 1);
      if IsCornerStep(upto - 1) {
        FullGridStepYields(keys, s, Cell(0, 0, 0), upto - 1);
      }
    }
  }

  /** On a fully populated grid with S >= 2, the corner node 0 has 7 neighbours. */
  lemma FullGridCornerHas7(keys: set<int>, s: int)
    requires s >= 2 && FullGrid(keys, s)
    ensures |Neighbors(keys, s, 0)| == 7
  {
    DecodeRange(0, s);
    EncodeDecode(0, s);
    EncodeInjective(Decode(0, s), Cell(0, 0, 0), s);
    CornerCount(keys, s, 27);
    CornerStepsTotal();
  }

  /** Seven of the 27 offsets lead from the corner into the grid. */
  lemma CornerStepsTotal()
    ensures CornerSteps(27) == 7
  {
    // dx = -1 leaves the grid; dx = 0 contributes steps 14, 16, 17; dx = 1 contributes 22, 23, 25, 26
    assert CornerSteps(3) == 0 && CornerSteps(6) == 0 && CornerSteps(9) == 0;
    assert CornerSteps(12) == 0 && CornerSteps(15) == 1 && CornerSteps(18) == 3;
    assert CornerSteps(21) == 3 && CornerSteps(24) == 5;
  }
}
