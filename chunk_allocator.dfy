/**
 * ChunkAllocator<T, ChunkSize> of chunkAllocator.h: a pool handing out
 * fixed-size slots from a growing list of chunks of ChunkSize slots each.
 *
 * A chunk's `freeList[i]` is true when slot i is OCCUPIED (the source's own
 * naming).  An address is modelled as the chunk it lies in plus the slot
 * offset; every chunk gets a fresh identity when it is created, which stands
 * for the fresh address of its `new T[ChunkSize]` block.
 */
module ChunkAllocation {
  import opened Wrappers

  /** The template's default chunk size. */
  const ChunkSize: nat := 64

  /** An address handed out by an allocator; Null is nullptr. */
  datatype Ptr = Null | Addr(chunk: nat, slot: nat)

  /** ChunkAllocator::Chunk: identity of its data block, occupancy flags and occupied-slot count. */
  datatype Chunk = Chunk(cid: nat, freeList: seq<bool>, allocatedCount: nat)

  /** The allocator's whole state: its chunk list, plus the identity the next new chunk will get. */
  datatype AllocModel = AllocModel(chunks: seq<Chunk>, nextChunkId: nat)

  /** Number of occupied flags. */
  function Occupied(s: seq<bool>): (n: nat)
    ensures n <= |s|
    ensures n == 0 <==> true !in s
  {
    if s == [] then 0 else Occupied(s[..|s| - 1]) + (if s[|s| - 1] then 1 else 0)
  }

  /** Lowest free slot of a chunk, or |s| when every slot is occupied. */
  function FirstFree(s: seq<bool>): (i: nat)
    ensures i <= |s|
    ensures i < |s| <==> false in s
    ensures i < |s| ==> !s[i]
    ensures forall j :: 0 <= j < i ==> s[j]
  {
    if s == [] then 0 else if !s[0] then 0 else 1 + FirstFree(s[1..])
  }

  /** Index of the first chunk that has a free slot, or |cs| when every chunk is full (FindFreeChunk). */
  function FirstChunkWithFree(cs: seq<Chunk>): (k: nat)
    ensures k <= |cs|
    ensures k < |cs| ==> false in cs[k].freeList
    ensures forall j :: 0 <= j < k ==> false !in cs[j].freeList
  {
    if cs == [] then 0 else if false in cs[0].freeList then 0 else 1 + FirstChunkWithFree(cs[1..])
  }

  /** `ptr >= chunk.data && ptr < chunk.data + ChunkSize`. */
  predicate InRange(c: Chunk, p: Ptr)
  {
    p.Addr? && p.chunk == c.cid && p.slot < ChunkSize
  }

  /** Index of the first chunk whose block contains p (GetChunkIndex), None when no chunk does. */
  function ChunkIndex(cs: seq<Chunk>, p: Ptr): (k: Option<nat>)
    ensures k.Some? ==> k.value < |cs| && InRange(cs[k.value], p)
    ensures k.Some? ==> forall j :: 0 <= j < k.value ==> !InRange(cs[j], p)
    ensures k.None? <==> forall j :: 0 <= j < |cs| ==> !InRange(cs[j], p)
  {
    if cs == [] then None
    else if InRange(cs[0], p) then Some(0)
    else match ChunkIndex(cs[1..], p)
      case None => None
      case Some(k) => Some(k + 1)
  }

  /** A chunk as the allocator keeps it: ChunkSize flags, a count that matches them, and at least one live object. */
  ghost predicate ChunkValid(c: Chunk)
  {
    |c.freeList| == ChunkSize && c.allocatedCount == Occupied(c.freeList) && c.allocatedCount >= 1
  }

  /** The allocator invariant: every chunk valid, chunk identities distinct and all below the next one to hand out. */
  ghost predicate ValidModel(m: AllocModel)
  {
    && (forall k :: 0 <= k < |m.chunks| ==> ChunkValid(m.chunks[k]) && m.chunks[k].cid < m.nextChunkId)
    && DistinctIds(m.chunks)
  }

  /** No two chunks share an identity: distinct `new T[ChunkSize]` blocks. */
  ghost predicate DistinctIds(cs: seq<Chunk>)
  {
    forall j, k :: 0 <= j < k < |cs| ==> cs[j].cid != cs[k].cid
  }

  /** The chunk emplace_back'ed when every chunk is full: all flags cleared, count 0. */
  function EmptyChunk(cid: nat): (c: Chunk)
    ensures |c.freeList| == ChunkSize && FirstFree(c.freeList) == 0 && c.allocatedCount == 0
  {
    Chunk(cid, seq(ChunkSize, _ => false), 0)
  }

  /** Occupy slot i: flag set, count incremented. */
  function Occupy(c: Chunk, i: nat): Chunk
    requires i < |c.freeList|
  {
    c.(freeList := c.freeList[i := true], allocatedCount := c.allocatedCount + 1)
  }

  /** Release slot i: flag cleared, count decremented. */
  function Release(c: Chunk, i: nat): Chunk
    requires i < |c.freeList| && c.allocatedCount >= 1
  {
    c.(freeList := c.freeList[i := false], allocatedCount := c.allocatedCount - 1)
  }

  /** p is an address currently handed out and not yet given back: it lies in a chunk at an occupied slot. */
  ghost predicate IsLive(m: AllocModel, p: Ptr)
  {
    exists k :: 0 <= k < |m.chunks| && InRange(m.chunks[k], p) && p.slot < |m.chunks[k].freeList| && m.chunks[k].freeList[p.slot]
  }

  /** The chunk list with the chunk at index k erased, the others kept in order. */
  function RemoveAt(cs: seq<Chunk>, k: nat): (r: seq<Chunk>)
    requires k < |cs|
    ensures |r| == |cs| - 1
    ensures forall j :: 0 <= j < |r| ==> r[j] == cs[if j < k then j else j + 1]
  {
    cs[..k] + cs[k + 1..]
  }

  /**
   * Allocate: the first chunk with a free slot, or a freshly appended empty
   * chunk when there is none, then the lowest free slot of that chunk.
   */
  function AllocateSpec(m: AllocModel): (AllocModel, Ptr)
  {
    var k := FirstChunkWithFree(m.chunks);
    var cs := if k < |m.chunks| then m.chunks else m.chunks + [EmptyChunk(m.nextChunkId)];
    var next := if k < |m.chunks| then m.nextChunkId else m.nextChunkId + 1;
    var c := cs[k];
    var i := FirstFree(c.freeList);
    if i < |c.freeList| then (AllocModel(cs[k := Occupy(c, i)], next), Addr(c.cid, i))
    else (AllocModel(cs, next), Null)
  }

  /**
   * Deallocate: nullptr is ignored; an address outside every chunk throws;
   * a free slot is left alone; an occupied slot is released, and its chunk is
   * erased once its count reaches zero.
   */
  function DeallocateSpec(m: AllocModel, p: Ptr): (AllocModel, Outcome)
  {
    if p.Null? then (m, Pass)
    else match ChunkIndex(m.chunks, p)
      case None => (m, Fail(InvalidArgument))
      case Some(k) =>
        var c := m.chunks[k];
        // A valid chunk has ChunkSize flags and a positive count under an
        // occupied flag, so the first two tests only keep the function total.
        if p.slot >= |c.freeList| || !c.freeList[p.slot] then (m, Pass)
        else if c.allocatedCount < 1 then (m, Pass)
        else
          var c' := Release(c, p.slot);
          if c'.allocatedCount == 0 then (m.(chunks := RemoveAt(m.chunks, k)), Pass)
          else (m.(chunks := m.chunks[k := c']), Pass)
  }

  // ---------------------------------------------------------------- counting

  lemma {:induction false} OccupiedPositive(s: seq<bool>, i: nat)
    requires i < |s| && s[i]
    ensures Occupied(s) >= 1
  {
    assert true in s;
  }

  lemma {:induction false} OccupiedUpdate(s: seq<bool>, i: nat, b: bool)
    requires i < |s|
    ensures Occupied(s[i := b]) == Occupied(s) - (if s[i] then 1 else 0) + (if b then 1 else 0)
  {
    var n := |s| - 1;
    if i == n {
      assert s[i := b][..n] == s[..n];
    } else {
      assert s[i := b][..n] == s[..n][i := b];
      OccupiedUpdate(s[..n], i, b);
    }
  }

  lemma OccupyKeepsCount(c: Chunk, i: nat)
    requires i < |c.freeList| && !c.freeList[i] && c.allocatedCount == Occupied(c.freeList)
    ensures Occupy(c, i).allocatedCount == Occupied(Occupy(c, i).freeList)
  {
    OccupiedUpdate(c.freeList, i, true);
  }

  lemma ReleaseKeepsCount(c: Chunk, i: nat)
    requires i < |c.freeList| && c.freeList[i] && c.allocatedCount == Occupied(c.freeList)
    ensures c.allocatedCount >= 1
    ensures Release(c, i).allocatedCount == Occupied(Release(c, i).freeList)
  {
    OccupiedPositive(c.freeList, i);
    OccupiedUpdate(c.freeList, i, false);
  }

  // ------------------------------------------------------------- structure

  /** With distinct identities, the chunk containing p is the one GetChunkIndex finds. */
  lemma {:induction false} ChunkIndexExact(cs: seq<Chunk>, p: Ptr, k: nat)
    requires k < |cs| && InRange(cs[k], p)
    requires DistinctIds(cs)
    ensures ChunkIndex(cs, p) == Some(k)
  {
  }

  /** Replacing a chunk by a valid one with the same identity keeps the invariant. */
  lemma ReplaceChunkValid(m: AllocModel, k: nat, c: Chunk)
    requires ValidModel(m) && k < |m.chunks| && ChunkValid(c) && c.cid == m.chunks[k].cid
    ensures ValidModel(m.(chunks := m.chunks[k := c]))
  {
  }

  /** Erasing a chunk keeps the invariant. */
  lemma RemoveChunkValid(m: AllocModel, k: nat)
    requires ValidModel(m) && k < |m.chunks|
    ensures ValidModel(m.(chunks := RemoveAt(m.chunks, k)))
  {
    var r := RemoveAt(m.chunks, k);
    forall i, j | 0 <= i < j < |r|
      ensures r[i].cid != r[j].cid
    {
      var i', j' := if i < k then i else i + 1, if j < k then j else j + 1;
      assert r[i] == m.chunks[i'] && r[j] == m.chunks[j'];
    }
  }

  // -------------------------------------------------------------- Allocate

  /** The slot Allocate hands out was free, and it is never nullptr: the trailing `return nullptr` is unreachable. */
  lemma AllocateNeverNull(m: AllocModel)
    requires ValidModel(m)
    ensures AllocateSpec(m).1 != Null
    ensures !IsLive(m, AllocateSpec(m).1)
  {
  }

  /**
   * First fit: the pointer lies in the first chunk with a free slot, at its
   * lowest free slot, and a chunk is appended exactly when every existing
   * chunk is full.  All other chunks are left as they were.
   */
  lemma AllocateIsFirstFit(m: AllocModel)
    ensures var (m', p) := AllocateSpec(m);
      var k := FirstChunkWithFree(m.chunks);
      && (k < |m.chunks| ==>
            && |m'.chunks| == |m.chunks| && m'.nextChunkId == m.nextChunkId
            && p == Addr(m.chunks[k].cid, FirstFree(m.chunks[k].freeList)))
      && (k == |m.chunks| ==>
            && |m'.chunks| == |m.chunks| + 1 && m'.nextChunkId == m.nextChunkId + 1
            && p == Addr(m.nextChunkId, 0))
      && (forall j :: 0 <= j < |m.chunks| && j != k ==> m'.chunks[j] == m.chunks[j])
  {
  }

  /** Allocate keeps the allocator invariant. */
  lemma AllocatePreservesValid(m: AllocModel)
    requires ValidModel(m)
    ensures ValidModel(AllocateSpec(m).0)
  {
    var k := FirstChunkWithFree(m.chunks);
    var m0 := if k < |m.chunks| then m else AllocModel(m.chunks + [EmptyChunk(m.nextChunkId)], m.nextChunkId + 1);
    var c := m0.chunks[k];
    var i := FirstFree(c.freeList);
    assert c.allocatedCount == Occupied(c.freeList) by {
      if k == |m.chunks| {
        assert true !in c.freeList;
      }
    }
    OccupyKeepsCount(c, i);
    assert ChunkValid(Occupy(c, i));
    assert AllocateSpec(m).0 == m0.(chunks := m0.chunks[k := Occupy(c, i)]);
    if k < |m.chunks| {
      ReplaceChunkValid(m, k, Occupy(c, i));
    }
  }

  /** Allocate makes exactly the returned address live. */
  lemma AllocateAddsLive(m: AllocModel)
    requires ValidModel(m)
    ensures var (m', p) := AllocateSpec(m); forall q :: IsLive(m', q) <==> IsLive(m, q) || q == p
  {
    forall q
      ensures IsLive(AllocateSpec(m).0, q) <==> IsLive(m, q) || q == AllocateSpec(m).1
    {
      AllocateAddsLiveAt(m, q);
    }
  }

  lemma AllocateAddsLiveAt(m: AllocModel, q: Ptr)
    requires ValidModel(m)
    ensures IsLive(AllocateSpec(m).0, q) <==> IsLive(m, q) || q == AllocateSpec(m).1
  {
    var k := FirstChunkWithFree(m.chunks);
    var m0 := if k < |m.chunks| then m else AllocModel(m.chunks + [EmptyChunk(m.nextChunkId)], m.nextChunkId + 1);
    if k == |m.chunks| {
      AppendEmptyKeepsLive(m, q);
    }
    assert DistinctIds(m0.chunks);
    var c := m0.chunks[k];
    var i := FirstFree(c.freeList);
    assert AllocateSpec(m) == (m0.(chunks := m0.chunks[k := Occupy(c, i)]), Addr(c.cid, i));
    LiveAfterReplaceAt(m0, k, Occupy(c, i), q);
    if InRange(c, q) {
      LiveInChunk(m0, k, q);
    }
  }

  /** Appending a chunk with every slot free makes no address live. */
  lemma AppendEmptyKeepsLive(m: AllocModel, q: Ptr)
    ensures IsLive(AllocModel(m.chunks + [EmptyChunk(m.nextChunkId)], m.nextChunkId + 1), q) <==> IsLive(m, q)
  {
    var m0 := AllocModel(m.chunks + [EmptyChunk(m.nextChunkId)], m.nextChunkId + 1);
    if IsLive(m0, q) {
      var j :| 0 <= j < |m0.chunks| && InRange(m0.chunks[j], q) && q.slot < |m0.chunks[j].freeList| && m0.chunks[j].freeList[q.slot];
      assert j < |m.chunks| && m0.chunks[j] == m.chunks[j];
    }
    if IsLive(m, q) {
      var j :| 0 <= j < |m.chunks| && InRange(m.chunks[j], q) && q.slot < |m.chunks[j].freeList| && m.chunks[j].freeList[q.slot];
      assert m0.chunks[j] == m.chunks[j];
    }
  }

  // ------------------------------------------------------------ Deallocate

  /** Deallocate(nullptr) does nothing. */
  lemma DeallocateNullIsNoop(m: AllocModel)
    requires ValidModel(m)
    ensures DeallocateSpec(m, Null) == (m, Pass)
  {
  }

  /** Deallocate throws invalid_argument exactly for a non-null address in no chunk, and then changes nothing. */
  lemma DeallocateForeignThrows(m: AllocModel, p: Ptr)
    requires ValidModel(m)
    ensures DeallocateSpec(m, p).1 == Fail(InvalidArgument) <==> p != Null && forall k :: 0 <= k < |m.chunks| ==> !InRange(m.chunks[k], p)
    ensures DeallocateSpec(m, p).1.Fail? ==> DeallocateSpec(m, p).0 == m
  {
  }

  /** An address inside a chunk but at a free slot is silently ignored. */
  lemma DeallocateFreeSlotIsNoop(m: AllocModel, p: Ptr)
    requires ValidModel(m) && !IsLive(m, p)
    requires exists k :: 0 <= k < |m.chunks| && InRange(m.chunks[k], p)
    ensures DeallocateSpec(m, p) == (m, Pass)
  {
    var k := ChunkIndex(m.chunks, p).value;
    assert !m.chunks[k].freeList[p.slot];
  }

  /** Deallocate keeps the allocator invariant, whether or not it erases a chunk. */
  lemma DeallocatePreservesValid(m: AllocModel, p: Ptr)
    requires ValidModel(m)
    ensures ValidModel(DeallocateSpec(m, p).0)
  {
    if p.Addr? && ChunkIndex(m.chunks, p).Some? {
      var k := ChunkIndex(m.chunks, p).value;
      var c := m.chunks[k];
      if c.freeList[p.slot] {
        ReleaseKeepsCount(c, p.slot);
        if Release(c, p.slot).allocatedCount == 0 {
          RemoveChunkValid(m, k);
        } else {
          ReplaceChunkValid(m, k, Release(c, p.slot));
        }
      }
    }
  }

  /** With distinct identities, an address inside chunk k is live exactly when chunk k has it occupied. */
  lemma LiveInChunk(m: AllocModel, k: nat, q: Ptr)
    requires DistinctIds(m.chunks) && k < |m.chunks| && InRange(m.chunks[k], q)
    ensures IsLive(m, q) <==> q.slot < |m.chunks[k].freeList| && m.chunks[k].freeList[q.slot]
  {
    if IsLive(m, q) {
      var j :| 0 <= j < |m.chunks| && InRange(m.chunks[j], q) && q.slot < |m.chunks[j].freeList| && m.chunks[j].freeList[q.slot];
      assert m.chunks[j].cid == m.chunks[k].cid;
    }
  }

  /** Replacing a chunk by one with the same identity changes liveness only inside that chunk. */
  lemma LiveAfterReplace(m: AllocModel, k: nat, c: Chunk)
    requires ValidModel(m) && k < |m.chunks| && c.cid == m.chunks[k].cid
    ensures forall q :: IsLive(m.(chunks := m.chunks[k := c]), q) <==>
      if InRange(m.chunks[k], q) then q.slot < |c.freeList| && c.freeList[q.slot] else IsLive(m, q)
  {
    forall q
      ensures IsLive(m.(chunks := m.chunks[k := c]), q) <==>
        if InRange(m.chunks[k], q) then q.slot < |c.freeList| && c.freeList[q.slot] else IsLive(m, q)
    {
      LiveAfterReplaceAt(m, k, c, q);
    }
  }

  lemma LiveAfterReplaceAt(m: AllocModel, k: nat, c: Chunk, q: Ptr)
    requires DistinctIds(m.chunks) && k < |m.chunks| && c.cid == m.chunks[k].cid
    ensures IsLive(m.(chunks := m.chunks[k := c]), q) <==>
      if InRange(m.chunks[k], q) then q.slot < |c.freeList| && c.freeList[q.slot] else IsLive(m, q)
  {
    var m' := m.(chunks := m.chunks[k := c]);
    if InRange(m.chunks[k], q) {
      assert DistinctIds(m'.chunks) by {
        assert forall j :: 0 <= j < |m.chunks| ==> m'.chunks[j].cid == m.chunks[j].cid;
      }
      LiveInChunk(m', k, q);
    } else {
      if IsLive(m', q) {
        var j :| 0 <= j < |m'.chunks| && InRange(m'.chunks[j], q) && q.slot < |m'.chunks[j].freeList| && m'.chunks[j].freeList[q.slot];
        assert j != k && m'.chunks[j] == m.chunks[j];
      }
      if IsLive(m, q) {
        var j :| 0 <= j < |m.chunks| && InRange(m.chunks[j], q) && q.slot < |m.chunks[j].freeList| && m.chunks[j].freeList[q.slot];
        assert j != k && m'.chunks[j] == m.chunks[j];
      }
    }
  }

  /** Erasing a chunk makes exactly the addresses inside it no longer live. */
  lemma LiveAfterRemove(m: AllocModel, k: nat)
    requires ValidModel(m) && k < |m.chunks|
    ensures forall q :: IsLive(m.(chunks := RemoveAt(m.chunks, k)), q) <==> !InRange(m.chunks[k], q) && IsLive(m, q)
  {
    forall q
      ensures IsLive(m.(chunks := RemoveAt(m.chunks, k)), q) <==> !InRange(m.chunks[k], q) && IsLive(m, q)
    {
      LiveAfterRemoveAt(m, k, q);
    }
  }

  lemma LiveAfterRemoveAt(m: AllocModel, k: nat, q: Ptr)
    requires ValidModel(m) && k < |m.chunks|
    ensures IsLive(m.(chunks := RemoveAt(m.chunks, k)), q) <==> !InRange(m.chunks[k], q) && IsLive(m, q)
  {
    if IsLive(m.(chunks := RemoveAt(m.chunks, k)), q) {
      LiveBeforeRemove(m, k, q);
    }
    if !InRange(m.chunks[k], q) && IsLive(m, q) {
      LiveKeptByRemove(m, k, q);
    }
  }

  lemma LiveBeforeRemove(m: AllocModel, k: nat, q: Ptr)
    requires ValidModel(m) && k < |m.chunks|
    requires IsLive(m.(chunks := RemoveAt(m.chunks, k)), q)
    ensures !InRange(m.chunks[k], q) && IsLive(m, q)
  {
    var r := RemoveAt(m.chunks, k);
    var j :| 0 <= j < |r| && InRange(r[j], q) && q.slot < |r[j].freeList| && r[j].freeList[q.slot];
    var jo := if j < k then j else j + 1;
    assert r[j] == m.chunks[jo];
    assert m.chunks[jo].cid != m.chunks[k].cid;
  }

  lemma LiveKeptByRemove(m: AllocModel, k: nat, q: Ptr)
    requires k < |m.chunks| && !InRange(m.chunks[k], q) && IsLive(m, q)
    ensures IsLive(m.(chunks := RemoveAt(m.chunks, k)), q)
  {
    var r := RemoveAt(m.chunks, k);
    var j :| 0 <= j < |m.chunks| && InRange(m.chunks[j], q) && q.slot < |m.chunks[j].freeList| && m.chunks[j].freeList[q.slot];
    var jn := if j < k then j else j - 1;
    assert r[jn] == m.chunks[j];
  }

  /** Handing back a live address succeeds and makes exactly that address no longer live. */
  lemma DeallocateRemovesLive(m: AllocModel, p: Ptr)
    requires ValidModel(m) && IsLive(m, p)
    ensures DeallocateSpec(m, p).1 == Pass
    ensures forall q :: IsLive(DeallocateSpec(m, p).0, q) <==> IsLive(m, q) && q != p
  {
    var k :| 0 <= k < |m.chunks| && InRange(m.chunks[k], p) && p.slot < |m.chunks[k].freeList| && m.chunks[k].freeList[p.slot];
    ChunkIndexExact(m.chunks, p, k);
    forall q
      ensures IsLive(DeallocateSpec(m, p).0, q) <==> IsLive(m, q) && q != p
    {
      DeallocateRemovesLiveAt(m, p, k, q);
    }
  }

  lemma DeallocateRemovesLiveAt(m: AllocModel, p: Ptr, k: nat, q: Ptr)
    requires ValidModel(m) && k < |m.chunks| && InRange(m.chunks[k], p) && m.chunks[k].freeList[p.slot]
    requires ChunkIndex(m.chunks, p) == Some(k)
    ensures DeallocateSpec(m, p).1 == Pass
    ensures IsLive(DeallocateSpec(m, p).0, q) <==> IsLive(m, q) && q != p
  {
    var c := m.chunks[k];
    ReleaseKeepsCount(c, p.slot);
    var c' := Release(c, p.slot);
    if InRange(c, q) {
      LiveInChunk(m, k, q);
    }
    if c'.allocatedCount == 0 {
      assert DeallocateSpec(m, p).0 == m.(chunks := RemoveAt(m.chunks, k));
      LiveAfterRemoveAt(m, k, q);
      if InRange(c, q) && q.slot != p.slot {
        assert !c'.freeList[q.slot];
      }
    } else {
      assert DeallocateSpec(m, p).0 == m.(chunks := m.chunks[k := c']);
      LiveAfterReplaceAt(m, k, c', q);
    }
  }

  /** Handing an address back right after it was handed out restores exactly the previous live addresses. */
  lemma AllocateThenDeallocate(m: AllocModel)
    requires ValidModel(m)
    ensures var (m1, p) := AllocateSpec(m);
      && ValidModel(m1)
      && DeallocateSpec(m1, p).1 == Pass
      && forall q :: IsLive(DeallocateSpec(m1, p).0, q) <==> IsLive(m, q)
  {
    var (m1, p) := AllocateSpec(m);
    AllocatePreservesValid(m);
    AllocateAddsLive(m);
    AllocateNeverNull(m);
    DeallocateRemovesLive(m1, p);
  }

  /**
   * Freeing the last object of a chunk erases the chunk, so freeing the same
   * address a second time finds it in no chunk and throws.
   */
  lemma DoubleFreeOfLastObjectThrows(m: AllocModel, p: Ptr, k: nat)
    requires ValidModel(m) && k < |m.chunks| && InRange(m.chunks[k], p) && m.chunks[k].freeList[p.slot]
    requires m.chunks[k].allocatedCount == 1
    ensures var m1 := DeallocateSpec(m, p).0;
      ValidModel(m1) && DeallocateSpec(m1, p).1 == Fail(InvalidArgument)
  {
    DeallocatePreservesValid(m, p);
    ChunkIndexExact(m.chunks, p, k);
    var m1 := DeallocateSpec(m, p).0;
    ReleaseKeepsCount(m.chunks[k], p.slot);
    assert m1.chunks == RemoveAt(m.chunks, k);
    forall j | 0 <= j < |m1.chunks|
      ensures !InRange(m1.chunks[j], p)
    {
      var jo := if j >= k then j + 1 else j;
      assert m1.chunks[j] == m.chunks[jo];
    }
  }

  // ----------------------------------------------------------------- class

  class ChunkAllocator {
    /** A ghost name telling an owner's allocators apart (in the source they differ by address). */
    ghost const tag: nat
    var chunks: seq<Chunk>
    /** Identity the next emplace_back'ed chunk will get. */
    var nextChunkId: nat

    function Model(): AllocModel
      reads this
    {
      AllocModel(chunks, nextChunkId)
    }

    ghost predicate Valid()
      reads this
    {
      ValidModel(Model())
    }

    /** A new allocator owns no chunk. */
    constructor (ghost tag: nat)
      ensures Model() == AllocModel([], 0) && this.tag == tag
    {
      this.tag := tag;
      chunks := [];
      nextChunkId := 0;
    }

    /** Index of the first chunk that has a free slot, None when every chunk is full. */
    method FindFreeChunk() returns (k: Option<nat>)
      ensures k.Some? ==> k.value < |chunks| && false in chunks[k.value].freeList
      ensures k.Some? ==> forall j :: 0 <= j < k.value ==> false !in chunks[j].freeList
      ensures k.None? <==> forall j :: 0 <= j < |chunks| ==> false !in chunks[j].freeList
    {
      var c := 0;
      while c < |chunks|
        invariant 0 <= c <= |chunks|
        invariant forall j :: 0 <= j < c ==> false !in chunks[j].freeList
      {
        var i := 0;
        while i < |chunks[c].freeList|
          invariant 0 <= i <= |chunks[c].freeList|
          invariant forall j :: 0 <= j < i ==> chunks[c].freeList[j]
        {
          if !chunks[c].freeList[i] {
            return Some(c);
          }
          i := i + 1;
        }
        c := c + 1;
      }
      return None;
    }

    /** Index of the first chunk whose block contains p, None when no chunk does. */
    method GetChunkIndex(p: Ptr) returns (k: Option<nat>)
      ensures k == ChunkIndex(chunks, p)
    {
      var i := 0;
      while i < |chunks|
        invariant 0 <= i <= |chunks|
        invariant forall j :: 0 <= j < i ==> !InRange(chunks[j], p)
      {
        if InRange(chunks[i], p) {
          return Some(i);
        }
        i := i + 1;
      }
      return None;
    }

    /** IsValid: p lies inside one of the allocator's chunks. */
    predicate IsValid(p: Ptr): (b: bool)
      reads this
      ensures b <==> exists k :: 0 <= k < |chunks| && InRange(chunks[k], p)
    {
      ChunkIndex(chunks, p).Some?
    }

    /** Hand out a slot: first free slot of the first chunk with room, appending a chunk when all are full. */
    method Allocate() returns (p: Ptr)
      requires Valid()
      modifies this
      ensures Valid()
      ensures (Model(), p) == AllocateSpec(old(Model()))
    {
      ghost var m := Model();
      AllocatePreservesValid(m);
      var found := FindFreeChunk();
      var k: nat;
      if found.None? {
        chunks := chunks + [EmptyChunk(nextChunkId)];
        nextChunkId := nextChunkId + 1;
        k := |chunks| - 1;
      } else {
        k := found.value;
      }
      assert k == FirstChunkWithFree(m.chunks);
      var i := 0;
      while i < ChunkSize
        invariant 0 <= i <= ChunkSize
        invariant forall j :: 0 <= j < i ==> chunks[k].freeList[j]
      {
        if !chunks[k].freeList[i] {
          var c := chunks[k];
          chunks := chunks[k := Occupy(c, i)];
          return Addr(c.cid, i);
        }
        i := i + 1;
      }
      assert false;
      return Null;
    }

    /** Erase the chunk at index k, keeping the order of the others. */
    method DeallocateChunk(k: nat)
      requires k < |chunks|
      modifies this`chunks
      ensures chunks == RemoveAt(old(chunks), k)
    {
      chunks := RemoveAt(chunks, k);
    }

    /** Give a slot back; throws when p lies in no chunk. */
    method Deallocate(p: Ptr) returns (r: Outcome)
      requires Valid()
      modifies this
      ensures Valid()
      ensures (Model(), r) == DeallocateSpec(old(Model()), p)
    {
      DeallocatePreservesValid(Model(), p);
      if p.Null? {
        return Pass;
      }
      var found := GetChunkIndex(p);
      if found.None? {
        return Fail(InvalidArgument);
      }
      var k := found.value;
      var c := chunks[k];
      assert ChunkValid(c);
      var slot := p.slot;
      if c.freeList[slot] {
        chunks := chunks[k := Release(c, slot)];
        if chunks[k].allocatedCount == 0 {
          DeallocateChunk(k);
        }
      }
      return Pass;
    }
  }
}
