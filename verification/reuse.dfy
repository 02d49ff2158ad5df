/**
 * `AvailableBlocksState` (lib/llm/src/kv/reuse.rs): the state owned by the progress engine of the
 * reuse pool. Each handler is proved to keep the indices consistent and the block accounting
 * balanced, and to hand out and leave behind exactly what module Handlers and ReuseSpec describe.
 */
module Reuse {
  import opened Blocks
  import PrioritySet
  import opened ReuseSpec
  import opened Pools
  import opened Handlers

  class AvailableBlocksState {
    /** `uninitialized_set`, `lookup_map` and `priority_set`, held as one value. */
    var pool: Pool
    /** `return_tick`: stamped on every block that is inserted or returned. */
    var returnTick: nat
    /** The `total_blocks` counter. */
    var totalBlocks: nat
    /** The `available_blocks` counter. */
    var availableBlocks: nat
    /** Blocks handed out and not yet returned. */
    ghost var checkedOut: nat

    /**
     * The indices agree, `available_blocks` counts the blocks held, and every block the pool ever
     * received is either held or handed out.
     */
    ghost predicate Valid()
      reads this
    {
      && Consistent(pool, returnTick)
      && availableBlocks == Size(pool)
      && totalBlocks == availableBlocks + checkedOut
    }

    /** `AvailableBlocksState::new`. */
    constructor()
      ensures Valid()
      ensures pool == Pool([], map[], []) && returnTick == 0
      ensures totalBlocks == 0 && availableBlocks == 0 && checkedOut == 0
    {
      pool := Pool([], map[], []);
      returnTick := 0;
      totalBlocks := 0;
      availableBlocks := 0;
      checkedOut := 0;
    }

    /** `insert`. */
    method Insert(b: Block)
      requires Consistent(pool, returnTick) && Fileable(pool, returnTick, b)
      modifies this`pool
      ensures pool == Filed(old(pool), returnTick, b)
    {
      var h := b.sequenceHash;
      if h in pool.lookupMap || h == SENTINEL {
        pool := pool.(uninitializedSet := pool.uninitializedSet + [b]);
        return;
      }
      ListsInsert(pool.prioritySet, pool.lookupMap, returnTick, b);
      // The priority set holds no Ord-equal key, and the lookup map no entry, for this block.
      assert !PrioritySet.HasRank(pool.prioritySet, KeyOf(b));
      pool := pool.(prioritySet := PrioritySet.Insert(pool.prioritySet, KeyOf(b)));
      assert h !in pool.lookupMap;
      pool := pool.(lookupMap := pool.lookupMap[h := b]);
    }

    /** `take_with_sequence_hash`. */
    method TakeWithSequenceHash(h: SequenceHash) returns (r: Option<Block>)
      requires Consistent(pool, returnTick)
      modifies this`pool
      ensures Taken(r, pool) == TakeHash(old(pool), returnTick, h)
    {
      if h in pool.lookupMap {
        var b := pool.lookupMap[h];
        ListsRemove(pool.prioritySet, pool.lookupMap, returnTick, h);
        pool := pool.(lookupMap := pool.lookupMap - {h});
        pool := pool.(prioritySet := PrioritySet.Remove(pool.prioritySet, KeyOf(b)));
        r := Some(b);
      } else {
        r := None;
      }
    }

    /**
     * `match_hashes`: claims blocks by hash, in order, up to the first hash that is not
     * resident, and takes them off the available count.
     */
    method MatchHashes(hashes: seq<SequenceHash>) returns (matched: seq<Block>)
      requires Valid()
      modifies this`pool, this`availableBlocks, this`checkedOut
      ensures Valid()
      ensures matched == MatchPrefix(old(pool.lookupMap), hashes)
      ensures pool.lookupMap == MatchRemaining(old(pool.lookupMap), hashes)
      ensures pool.uninitializedSet == old(pool.uninitializedSet)
      ensures availableBlocks == old(availableBlocks) - |matched|
      ensures checkedOut == old(checkedOut) + |matched|
    {
      ghost var m0 := pool.lookupMap;
      matched := ClaimHashes(hashes);
      MatchSizes(m0, hashes);
      availableBlocks, checkedOut := availableBlocks - |matched|, checkedOut + |matched|;
    }

    /**
     * The loop of `match_hashes`: `take_with_sequence_hash` for each hash in turn, stopping at the
     * first one that is not resident. It claims the blocks `MatchPrefix` names, leaves the lookup
     * map `MatchRemaining` describes, and does not touch the queue.
     */
    method ClaimHashes(hashes: seq<SequenceHash>) returns (matched: seq<Block>)
      requires Consistent(pool, returnTick)
      modifies this`pool
      ensures Consistent(pool, returnTick)
      ensures matched == MatchPrefix(old(pool.lookupMap), hashes)
      ensures pool.lookupMap == MatchRemaining(old(pool.lookupMap), hashes)
      ensures pool.uninitializedSet == old(pool.uninitializedSet)
    {
      ghost var m0 := pool.lookupMap;
      matched := [];
      var i := 0;
      while i < |hashes|
        invariant i <= |hashes|
        invariant Consistent(pool, returnTick)
        invariant pool.uninitializedSet == old(pool.uninitializedSet)
        invariant MatchPrefix(m0, hashes) == matched + MatchPrefix(pool.lookupMap, hashes[i..])
        invariant MatchRemaining(m0, hashes) == MatchRemaining(pool.lookupMap, hashes[i..])
      {
        assert hashes[i..][0] == hashes[i] && hashes[i..][1..] == hashes[i + 1..];
        var block := TakeWithSequenceHash(hashes[i]);
        if block.None? {
          break;
        }
        matched := matched + [block.value];
        i := i + 1;
      }
      assert matched + [] == matched;
    }

    /** `handle_match_single`: the block of one hash, if it is resident. */
    method HandleMatchSingle(h: SequenceHash) returns (r: Option<Block>)
      requires Valid()
      modifies this`pool, this`availableBlocks, this`checkedOut
      ensures Valid()
      ensures r == (if h in old(pool.lookupMap) then Some(old(pool.lookupMap)[h]) else None)
      ensures pool.lookupMap == old(pool.lookupMap) - {h}
      ensures pool.uninitializedSet == old(pool.uninitializedSet)
      ensures availableBlocks == old(availableBlocks) - (if r.Some? then 1 else 0)
    {
      ghost var m := pool.lookupMap;
      assert [h][1..] == [];
      assert h !in m ==> m - {h} == m;
      var matched := MatchHashes([h]);
      r := if |matched| > 0 then Some(matched[0]) else None;
    }

    /** `take`: the front of the queue, else the block of the first key of the priority set. */
    method Take() returns (r: Option<Block>)
      requires Consistent(pool, returnTick)
      modifies this`pool
      ensures Taken(r, pool) == TakeNext(old(pool), returnTick)
    {
      if pool.uninitializedSet != [] {
        r := Some(pool.uninitializedSet[0]);
        pool := pool.(uninitializedSet := pool.uninitializedSet[1..]);
        return;
      }
      if pool.prioritySet != [] {
        var h := pool.prioritySet[0].sequenceHash;
        pool := pool.(prioritySet := pool.prioritySet[1..]);
        // The popped key names a resident block; the source panics otherwise.
        assert h in pool.lookupMap;
        r := Some(pool.lookupMap[h]);
        pool := pool.(lookupMap := pool.lookupMap - {h});
        return;
      }
      r := None;
    }

    /**
     * `handle_take`: up to `count` blocks, first the front of the queue, then the resident
     * blocks in priority-set order; they come off the available count.
     */
    method HandleTake(count: U32) returns (taken: seq<Block>)
      requires Valid()
      modifies this`pool, this`availableBlocks, this`checkedOut
      ensures Valid()
      ensures TakeOutcome(old(pool), count, taken, pool)
      ensures |taken| == Min(count, old(availableBlocks))
      ensures availableBlocks == old(availableBlocks) - |taken|
      ensures checkedOut == old(checkedOut) + |taken|
    {
      ghost var p0 := pool;
      taken := TakeBlocks(count);
      TakeManyOutcome(p0, returnTick, count);
      var n := |taken|;
      availableBlocks, checkedOut := availableBlocks - n, checkedOut + n;
    }

    /**
     * The loop of `handle_take`: `take` up to `count` times, stopping when the pool runs dry. It
     * hands out the front of the queue, then the resident blocks in priority-set order.
     */
    method TakeBlocks(count: nat) returns (taken: seq<Block>)
      requires Consistent(pool, returnTick)
      modifies this`pool
      ensures Drawn(taken, pool) == TakeMany(old(pool), returnTick, count)
    {
      ghost var p0 := pool;
      taken := [];
      for i := 0 to count
        invariant Consistent(pool, returnTick)
        invariant TakeFrom(pool, returnTick, count - i, taken) == TakeMany(p0, returnTick, count)
      {
        var block := Take();
        if block.None? {
          break;
        }
        taken := taken + [block.value];
      }
    }

    /** `handle_insert`: a new block joins the pool, stamped with the next tick. */
    method HandleInsert(b: Block)
      requires Valid()
      modifies this`pool, this`returnTick, this`totalBlocks, this`availableBlocks
      ensures Valid()
      ensures returnTick == old(returnTick) + 1
      ensures pool == Stamped(old(pool), old(returnTick), b)
      ensures totalBlocks == old(totalBlocks) + 1 && availableBlocks == old(availableBlocks) + 1
    {
      StampIsFileable(pool, returnTick, b);
      availableBlocks := availableBlocks + 1;
      totalBlocks := totalBlocks + 1;
      returnTick := returnTick + 1;
      var stamped := b.(returnTick := returnTick);
      Insert(stamped);
    }

    /** `handle_return`: a block handed out earlier comes back, stamped with the next tick. */
    method HandleReturn(b: Block)
      requires Valid() && checkedOut > 0
      modifies this`pool, this`returnTick, this`availableBlocks, this`checkedOut
      ensures Valid()
      ensures returnTick == old(returnTick) + 1
      ensures pool == Stamped(old(pool), old(returnTick), b)
      ensures availableBlocks == old(availableBlocks) + 1 && checkedOut == old(checkedOut) - 1
    {
      StampIsFileable(pool, returnTick, b);
      availableBlocks := availableBlocks + 1;
      checkedOut := checkedOut - 1;
      returnTick := returnTick + 1;
      var stamped := b.(returnTick := returnTick);
      Insert(stamped);
    }

    /**
     * `update_block`: every resident block named by an update is filed again, with the update's
     * priority when it carries one; nothing is added, removed or handed out.
     */
    method UpdateBlock(updates: seq<UpdateBlock>)
      requires Valid()
      modifies this`pool
      ensures Valid()
      ensures pool.lookupMap == ApplyUpdates(old(pool.lookupMap), updates)
      ensures pool.uninitializedSet == old(pool.uninitializedSet)
    {
      pool := UpdateLoop(pool, returnTick, updates);
    }

    /** `handle_update_single`: `update_block` with one update. */
    method HandleUpdateSingle(update: UpdateBlock)
      requires Valid()
      modifies this`pool
      ensures Valid()
      ensures pool.lookupMap == UpdateOne(old(pool.lookupMap), update)
      ensures pool.uninitializedSet == old(pool.uninitializedSet)
    {
      assert [update][1..] == [];
      UpdateBlock([update]);
    }

    /**
     * `handle_reset`: every resident block named in the list loses its identity and moves to the
     * back of the queue, in the order of the list.
     */
    method HandleReset(hashes: seq<SequenceHash>)
      requires Valid()
      modifies this`pool
      ensures Valid()
      ensures pool.lookupMap == ResetHashes(old(pool.lookupMap), hashes).0
      ensures pool.uninitializedSet == old(pool.uninitializedSet) + ResetHashes(old(pool.lookupMap), hashes).1
    {
      pool := ResetLoop(pool, returnTick, hashes);
    }

    /**
     * `handle_reset_all`: every resident block, in priority-set order, loses its identity and
     * moves to the back of the queue; both indices end empty.
     */
    method HandleResetAll()
      requires Valid()
      modifies this`pool
      ensures Valid()
      ensures var u, m, ps := old(pool.uninitializedSet), old(pool.lookupMap), old(pool.prioritySet);
              && pool.lookupMap == map[] && pool.prioritySet == []
              && |pool.uninitializedSet| == |u| + |ps|
              && pool.uninitializedSet[..|u|] == u
              && forall x :: 0 <= x < |ps| ==> ps[x].sequenceHash in m && pool.uninitializedSet[|u| + x] == ResetBlock(m[ps[x].sequenceHash])
    {
      var p := ResetAllLoop(pool, returnTick);
      ResetAllDone(pool, returnTick, p);
      pool := p;
    }
  }
}
