/**
 * The three collections of `AvailableBlocksState` (lib/llm/src/kv/reuse.rs) — the uninitialized
 * queue, the lookup map and the priority set — as one value, and what each handler does to it,
 * one step at a time and over a whole request.
 */
module Pools {
  import opened Blocks
  import PrioritySet
  import opened ReuseSpec

  /** `uninitialized_set`, `lookup_map` and `priority_set`. */
  datatype Pool = Pool(uninitializedSet: seq<Block>, lookupMap: map<SequenceHash, Block>, prioritySet: seq<PriorityKey>)

  /** The block a single-block operation hands out (if any) and the collections it leaves. */
  datatype Taken = Taken(block: Option<Block>, pool: Pool)

  /** The indices agree with each other and resident ticks are distinct (see `Lists`); the queue is unconstrained. */
  ghost predicate Consistent(p: Pool, tick: nat) {
    Lists(p.prioritySet, p.lookupMap, tick)
  }

  /** The number of available blocks the collections hold. */
  function Size(p: Pool): nat {
    |p.lookupMap| + |p.uninitializedSet|
  }

  /**
   * What `insert` demands of a block it files into the indices: a tick no later than the engine's
   * and carried by no resident block, so the priority set holds no Ord-equal key.
   */
  ghost predicate Fileable(p: Pool, tick: nat, b: Block) {
    b.sequenceHash != SENTINEL && b.sequenceHash !in p.lookupMap ==>
      && b.returnTick <= tick
      && forall h :: h in p.lookupMap ==> p.lookupMap[h].returnTick != b.returnTick
  }

  /** `AvailableBlocksState::insert`. */
  function Filed(p: Pool, tick: nat, b: Block): (r: Pool)
    requires Consistent(p, tick) && Fileable(p, tick, b)
    ensures Consistent(r, tick)
    ensures Size(r) == Size(p) + 1
  {
    var h := b.sequenceHash;
    if h in p.lookupMap || h == SENTINEL then
      p.(uninitializedSet := p.uninitializedSet + [b])
    else
      ListsInsert(p.prioritySet, p.lookupMap, tick, b);
      assert p.lookupMap[h := b].Keys == p.lookupMap.Keys + {h};
      Pool(p.uninitializedSet, p.lookupMap[h := b], PrioritySet.Insert(p.prioritySet, KeyOf(b)))
  }

  /**
   * Where `insert` puts a block: a sentinel or already-resident hash joins the back of the queue
   * and leaves the indices alone; any other block becomes the resident block of its hash, ranked
   * in the priority set by its key.
   */
  lemma FiledRouting(p: Pool, tick: nat, b: Block)
    requires Consistent(p, tick) && Fileable(p, tick, b)
    ensures var r := Filed(p, tick, b);
            if b.sequenceHash == SENTINEL || b.sequenceHash in p.lookupMap then
              r == p.(uninitializedSet := p.uninitializedSet + [b])
            else
              && r.uninitializedSet == p.uninitializedSet
              && r.lookupMap == p.lookupMap[b.sequenceHash := b]
              && (forall x :: x in r.prioritySet <==> x in p.prioritySet || x == KeyOf(b))
  {
  }

  /** `take_with_sequence_hash`. */
  function TakeHash(p: Pool, tick: nat, h: SequenceHash): (r: Taken)
    requires Consistent(p, tick)
    ensures Consistent(r.pool, tick)
    ensures r.block == (if h in p.lookupMap then Some(p.lookupMap[h]) else None)
    ensures r.pool.uninitializedSet == p.uninitializedSet
    ensures r.pool.lookupMap == p.lookupMap - {h}
    ensures h !in p.lookupMap ==> r.pool == p
    ensures Size(r.pool) == Size(p) - (if h in p.lookupMap then 1 else 0)
  {
    if h in p.lookupMap then
      var b := p.lookupMap[h];
      ListsRemove(p.prioritySet, p.lookupMap, tick, h);
      MapRemoveSize(p.lookupMap, h);
      Taken(Some(b), Pool(p.uninitializedSet, p.lookupMap - {h}, PrioritySet.Remove(p.prioritySet, KeyOf(b))))
    else
      assert p.lookupMap - {h} == p.lookupMap;
      Taken(None, p)
  }

  /** `take`: the front of the queue, else the first key of the priority set. */
  function TakeNext(p: Pool, tick: nat): (r: Taken)
    requires Consistent(p, tick)
    ensures Consistent(r.pool, tick)
    ensures r.block.None? <==> Size(p) == 0
    ensures r.block.None? ==> r.pool == p
    ensures r.block.Some? ==> Size(r.pool) == Size(p) - 1
  {
    var u, m, ps := p.uninitializedSet, p.lookupMap, p.prioritySet;
    if u != [] then
      Taken(Some(u[0]), p.(uninitializedSet := u[1..]))
    else if ps != [] then
      MapRemoveSize(m, ps[0].sequenceHash);
      Taken(Some(m[ps[0].sequenceHash]), Pool(u, m - {ps[0].sequenceHash}, ps[1..]))
    else
      Taken(None, p)
  }

  /**
   * `take` hands out the front of the queue while there is one; otherwise the resident block that
   * ranks strictly before every other resident block, which leaves both indices.
   */
  lemma TakeNextChoice(p: Pool, tick: nat)
    requires Consistent(p, tick)
    ensures var r := TakeNext(p, tick);
            var u, m := p.uninitializedSet, p.lookupMap;
            && (u != [] ==> r == Taken(Some(u[0]), p.(uninitializedSet := u[1..])))
            && (u == [] && m != map[] ==>
                  && r.block.Some?
                  && var h := r.block.value.sequenceHash;
                     && h in m && r.block.value == m[h]
                     && (forall h' :: h' in m && h' != h ==> Compare(KeyOf(m[h]), KeyOf(m[h'])) == Less)
                     && r.pool == Pool(u, m - {h}, p.prioritySet[1..]))
  {
    var u, m, ps := p.uninitializedSet, p.lookupMap, p.prioritySet;
    if u == [] && m != map[] {
      ListsToIndexes(ps, m, tick);
      IndexesPopFirst(ps, m, tick);
    }
  }

  function Min(a: int, b: int): int {
    if a <= b then a else b
  }

  /**
   * `handle_insert` and `handle_return` advance the tick before filing: the indices stay
   * consistent under the new tick, and a block stamped with it is fileable, since every resident
   * block carries an earlier tick.
   */
  lemma StampIsFileable(p: Pool, tick: nat, b: Block)
    requires Consistent(p, tick)
    ensures Consistent(p, tick + 1)
    ensures Fileable(p, tick + 1, b.(returnTick := tick + 1))
  {
    ListsLater(p.prioritySet, p.lookupMap, tick, tick + 1);
    ListsToIndexes(p.prioritySet, p.lookupMap, tick);
  }

  /**
   * What `handle_insert` and `handle_return` do to the collections: advance the tick, stamp the
   * block with it and file it. The block joins the pool, which stays consistent under the new tick.
   */
  function Stamped(p: Pool, tick: nat, b: Block): (r: Pool)
    requires Consistent(p, tick)
    ensures Consistent(r, tick + 1)
    ensures Size(r) == Size(p) + 1
  {
    StampIsFileable(p, tick, b);
    Filed(p, tick + 1, b.(returnTick := tick + 1))
  }

  /**
   * Where a new block lands in the priority set: after every key of no higher priority and before
   * every key of higher priority, since its tick is later than every resident's. Among equal
   * priorities blocks therefore leave in the order they arrived.
   */
  lemma StampedBetween(p: Pool, tick: nat, b: Block, n: nat)
    requires Consistent(p, tick) && n <= |p.prioritySet|
    requires b.sequenceHash != SENTINEL && b.sequenceHash !in p.lookupMap
    requires forall i :: 0 <= i < n ==> p.prioritySet[i].priority <= b.priority
    requires forall i :: n <= i < |p.prioritySet| ==> b.priority < p.prioritySet[i].priority
    ensures var s := b.(returnTick := tick + 1);
            Stamped(p, tick, b) == Pool(p.uninitializedSet, p.lookupMap[b.sequenceHash := s], p.prioritySet[..n] + [KeyOf(s)] + p.prioritySet[n..])
  {
    StampIsFileable(p, tick, b);
    ListsToIndexes(p.prioritySet, p.lookupMap, tick);
    PrioritySet.InsertBetween(p.prioritySet, n, KeyOf(b.(returnTick := tick + 1)));
  }

  /** Consistent collections with the same queue and lookup map are equal: the map fixes the priority set. */
  lemma SameMapSamePool(p1: Pool, p2: Pool, tick: nat)
    requires Consistent(p1, tick) && Consistent(p2, tick)
    requires p1.uninitializedSet == p2.uninitializedSet && p1.lookupMap == p2.lookupMap
    ensures p1 == p2
  {
    ListsToIndexes(p1.prioritySet, p1.lookupMap, tick);
    ListsToIndexes(p2.prioritySet, p2.lookupMap, tick);
    IndexesDetermined(p1.prioritySet, p2.prioritySet, p1.lookupMap, tick);
  }

  /**
   * Round trip: a block with a new non-sentinel hash that `handle_insert` or `handle_return`
   * files is handed back, stamped with the new tick, by matching its hash; the match restores the
   * collections exactly. A block that comes back from a borrower is thus matched with a tick later
   * than any the pool had issued before.
   */
  lemma InsertThenMatch(p: Pool, tick: nat, b: Block)
    requires Consistent(p, tick)
    requires b.sequenceHash != SENTINEL && b.sequenceHash !in p.lookupMap
    ensures var t := TakeHash(Stamped(p, tick, b), tick + 1, b.sequenceHash);
            && t.block == Some(b.(returnTick := tick + 1))
            && t.pool == p
            && t.block.value.returnTick > tick
  {
    var h, s := b.sequenceHash, b.(returnTick := tick + 1);
    StampIsFileable(p, tick, b);
    FiledRouting(p, tick + 1, s);
    var q := Stamped(p, tick, b);
    assert q.uninitializedSet == p.uninitializedSet && q.lookupMap == p.lookupMap[h := s];
    var t := TakeHash(q, tick + 1, h);
    assert t.pool.lookupMap == p.lookupMap by {
      assert p.lookupMap[h := s] - {h} == p.lookupMap;
    }
    SameMapSamePool(t.pool, p, tick + 1);
  }

  /**
   * A block taken out by hash may be filed again with its own tick, under its own hash or the
   * sentinel, whatever its priority: `update_block` and `handle_reset` never trip `insert`'s
   * assertions.
   */
  lemma TakenIsFileable(p: Pool, tick: nat, h: SequenceHash, b: Block)
    requires Consistent(p, tick) && h in p.lookupMap
    requires b.returnTick == p.lookupMap[h].returnTick
    requires b.sequenceHash == h || b.sequenceHash == SENTINEL
    ensures Fileable(TakeHash(p, tick, h).pool, tick, b)
  {
    ListsToIndexes(p.prioritySet, p.lookupMap, tick);
  }

  /** A resident block is filed under its own hash, which is not the sentinel. */
  lemma ResidentHash(p: Pool, tick: nat, h: SequenceHash)
    requires Consistent(p, tick) && h in p.lookupMap
    ensures h != SENTINEL && p.lookupMap[h].sequenceHash == h
  {
    ListsToIndexes(p.prioritySet, p.lookupMap, tick);
  }

  /** Each key of the priority set names a resident block, and each resident block has one key. */
  lemma KeysResident(p: Pool, tick: nat)
    requires Consistent(p, tick)
    ensures |p.prioritySet| == |p.lookupMap|
    ensures forall i :: 0 <= i < |p.prioritySet| ==> p.prioritySet[i].sequenceHash in p.lookupMap
  {
    ListsToIndexes(p.prioritySet, p.lookupMap, tick);
  }
}
