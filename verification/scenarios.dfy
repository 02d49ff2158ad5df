/**
 * The engine-level tests of lib/llm/src/kv/reuse.rs, replayed on `AvailableBlocksState`. Each
 * block the tests build from two tokens is written `Pair(first, hash, priority)`; its sequence
 * hash is a fixed non-sentinel constant, distinct per block.
 */
module Scenarios {
  import opened Blocks
  import opened Pools
  import opened Reuse

  /** The block of tokens `[first, first + 1]`, not yet stamped. */
  function Pair(first: nat, hash: SequenceHash, priority: Priority): Block {
    Block([first, first + 1], hash, priority, 0)
  }

  /** `block` as the pool stamps it at `tick`. */
  function Stamp(block: Block, tick: nat): Block {
    block.(returnTick := tick)
  }

  /** The first token of each block, in order: what the ordering tests look at. */
  function FirstTokens(bs: seq<Block>): (r: seq<nat>)
    requires forall i :: 0 <= i < |bs| ==> |bs[i].tokens| > 0
    ensures |r| == |bs|
    ensures forall i :: 0 <= i < |bs| ==> r[i] == bs[i].tokens[0]
  {
    if bs == [] then [] else [bs[0].tokens[0]] + FirstTokens(bs[1..])
  }

  /** The first tokens of four blocks, in order. */
  lemma FirstTokensOfFour(a: Block, b: Block, c: Block, d: Block)
    requires |a.tokens| > 0 && |b.tokens| > 0 && |c.tokens| > 0 && |d.tokens| > 0
    ensures FirstTokens([a, b, c, d]) == [a.tokens[0], b.tokens[0], c.tokens[0], d.tokens[0]]
  {
  }

  /** The collections after `handle_insert` of two blocks, in order, at `tick`. */
  function InsertedTwo(p: Pool, tick: nat, b1: Block, b2: Block): Pool
    requires Consistent(p, tick)
  {
    Stamped(Stamped(p, tick, b1), tick + 1, b2)
  }

  /** The collections after `handle_insert` of four blocks, in order, into a new pool. */
  function InsertedFour(b1: Block, b2: Block, b3: Block, b4: Block): Pool
  {
    InsertedTwo(InsertedTwo(Pool([], map[], []), 0, b1, b2), 2, b3, b4)
  }

  /**
   * Two blocks with distinct non-sentinel hashes, the second of no lower priority, inserted into
   * a new pool: both become resident, ranked in the order they arrived.
   */
  lemma TwoInserts(b1: Block, b2: Block)
    requires b1.sequenceHash != SENTINEL && b2.sequenceHash != SENTINEL && b1.sequenceHash != b2.sequenceHash
    requires b1.priority <= b2.priority
    ensures var r1, r2 := Stamp(b1, 1), Stamp(b2, 2);
            Stamped(Stamped(Pool([], map[], []), 0, b1), 1, b2)
              == Pool([], map[b1.sequenceHash := r1, b2.sequenceHash := r2], [KeyOf(r1), KeyOf(r2)])
  {
    var p0 := Pool([], map[], []);
    StampedBetween(p0, 0, b1, 0);
    StampedBetween(Stamped(p0, 0, b1), 1, b2, 1);
  }

  /** The first two inserts of both ordering tests: blocks `[7, 8]` and `[5, 6]` at priority `p2`. */
  lemma SecondSequencePool(p2: Priority)
    ensures var r1, r2 := Stamp(Pair(7, 22, p2), 1), Stamp(Pair(5, 21, p2), 2);
            Stamped(Stamped(Pool([], map[], []), 0, Pair(7, 22, p2)), 1, Pair(5, 21, p2))
              == Pool([], map[22 := r1, 21 := r2], [KeyOf(r1), KeyOf(r2)])
  {
    TwoInserts(Pair(7, 22, p2), Pair(5, 21, p2));
  }

  /** The third insert of `test_equal_priority_taking`: block `[3, 4]`, at the same priority, ranks last. */
  lemma EqualPriorityThird(p: Priority)
    ensures var r1, r2, r3 := Stamp(Pair(7, 22, p), 1), Stamp(Pair(5, 21, p), 2), Stamp(Pair(3, 12, p), 3);
            Stamped(Stamped(Stamped(Pool([], map[], []), 0, Pair(7, 22, p)), 1, Pair(5, 21, p)), 2, Pair(3, 12, p))
              == Pool([], map[22 := r1, 21 := r2, 12 := r3], [KeyOf(r1), KeyOf(r2), KeyOf(r3)])
  {
    SecondSequencePool(p);
    StampedBetween(Stamped(Stamped(Pool([], map[], []), 0, Pair(7, 22, p)), 1, Pair(5, 21, p)), 2, Pair(3, 12, p), 2);
  }

  /**
   * Equal priorities: blocks `[7, 8]` and `[5, 6]`, then `[3, 4]` and `[1, 2]`, all of priority
   * `p`, are ranked in the order they arrived.
   */
  lemma EqualPriorityPool(p: Priority)
    ensures var r1, r2, r3, r4 := Stamp(Pair(7, 22, p), 1), Stamp(Pair(5, 21, p), 2), Stamp(Pair(3, 12, p), 3), Stamp(Pair(1, 11, p), 4);
            var q := InsertedFour(Pair(7, 22, p), Pair(5, 21, p), Pair(3, 12, p), Pair(1, 11, p));
            && q.uninitializedSet == [] && q.prioritySet == [KeyOf(r1), KeyOf(r2), KeyOf(r3), KeyOf(r4)]
            && q.lookupMap == map[22 := r1, 21 := r2, 12 := r3, 11 := r4]
  {
    EqualPriorityThird(p);
    StampedBetween(Stamped(Stamped(Stamped(Pool([], map[], []), 0, Pair(7, 22, p)), 1, Pair(5, 21, p)), 2, Pair(3, 12, p)), 3, Pair(1, 11, p), 3);
  }

  /**
   * Different priorities: blocks `[7, 8]` and `[5, 6]` of priority `p2`, then `[3, 4]` and
   * `[1, 2]` of a lower priority `p1`; the lower-priority blocks rank first although they arrived
   * last, and each priority keeps arrival order.
   */
  lemma PriorityPool(p1: Priority, p2: Priority)
    requires p1 < p2
    ensures var r1, r2, r3, r4 := Stamp(Pair(7, 22, p2), 1), Stamp(Pair(5, 21, p2), 2), Stamp(Pair(3, 12, p1), 3), Stamp(Pair(1, 11, p1), 4);
            var q := InsertedFour(Pair(7, 22, p2), Pair(5, 21, p2), Pair(3, 12, p1), Pair(1, 11, p1));
            && q.uninitializedSet == [] && q.prioritySet == [KeyOf(r3), KeyOf(r4), KeyOf(r1), KeyOf(r2)]
            && q.lookupMap == map[22 := r1, 21 := r2, 12 := r3, 11 := r4]
  {
    SecondSequencePool(p2);
    var q2 := Stamped(Stamped(Pool([], map[], []), 0, Pair(7, 22, p2)), 1, Pair(5, 21, p2));
    StampedBetween(q2, 2, Pair(3, 12, p1), 0);
    StampedBetween(Stamped(q2, 2, Pair(3, 12, p1)), 3, Pair(1, 11, p1), 1);
  }

  /** `handle_insert` of two blocks, in order. */
  method InsertTwo(s: AvailableBlocksState, b1: Block, b2: Block)
    requires s.Valid()
    modifies s
    ensures s.Valid() && s.returnTick == old(s.returnTick) + 2
    ensures s.pool == InsertedTwo(old(s.pool), old(s.returnTick), b1, b2)
    ensures s.totalBlocks == old(s.totalBlocks) + 2 && s.availableBlocks == old(s.availableBlocks) + 2
  {
    s.HandleInsert(b1);
    s.HandleInsert(b2);
  }

  /** The tests' inserts: two blocks of the second sequence, then two of the first, into a new state. */
  method InsertFour(b1: Block, b2: Block, b3: Block, b4: Block) returns (s: AvailableBlocksState)
    ensures fresh(s) && s.Valid()
    ensures s.pool == InsertedFour(b1, b2, b3, b4)
    ensures s.totalBlocks == 4 && s.availableBlocks == 4
  {
    s := new AvailableBlocksState();
    InsertTwo(s, b1, b2);
    InsertTwo(s, b3, b4);
  }

  /** `handle_take` of four blocks from a pool with an empty queue and four resident blocks. */
  method TakeFour(s: AvailableBlocksState, a: Block, b: Block, c: Block, d: Block) returns (taken: seq<Block>)
    requires s.Valid()
    requires s.pool.uninitializedSet == [] && s.pool.prioritySet == [KeyOf(a), KeyOf(b), KeyOf(c), KeyOf(d)]
    requires a.sequenceHash in s.pool.lookupMap && s.pool.lookupMap[a.sequenceHash] == a
    requires b.sequenceHash in s.pool.lookupMap && s.pool.lookupMap[b.sequenceHash] == b
    requires c.sequenceHash in s.pool.lookupMap && s.pool.lookupMap[c.sequenceHash] == c
    requires d.sequenceHash in s.pool.lookupMap && s.pool.lookupMap[d.sequenceHash] == d
    modifies s
    ensures taken == [a, b, c, d]
    ensures s.availableBlocks == old(s.availableBlocks) - 4 && s.totalBlocks == old(s.totalBlocks)
  {
    ghost var ps := s.pool.prioritySet;
    taken := s.HandleTake(4);
    assert |taken| == 4;
    assert ps[0] == KeyOf(a) && ps[1] == KeyOf(b) && ps[2] == KeyOf(c) && ps[3] == KeyOf(d);
    assert taken[0] == a && taken[1] == b && taken[2] == c && taken[3] == d;
  }

  /**
   * `test_equal_priority_taking`, at any common priority (the test uses 1): the four blocks come
   * out as 7, 5, 3, 1.
   */
  method EqualPriorityTaking(p: Priority) returns (firsts: seq<nat>)
    ensures firsts == [7, 5, 3, 1]
  {
    var s := InsertFour(Pair(7, 22, p), Pair(5, 21, p), Pair(3, 12, p), Pair(1, 11, p));
    EqualPriorityPool(p);
    var a, b, c, d := Stamp(Pair(7, 22, p), 1), Stamp(Pair(5, 21, p), 2), Stamp(Pair(3, 12, p), 3), Stamp(Pair(1, 11, p), 4);
    var taken := TakeFour(s, a, b, c, d);
    FirstTokensOfFour(a, b, c, d);
    firsts := FirstTokens(taken);
  }

  /**
   * `test_priority_taking`, at any priorities `p1 < p2` (the test uses 1 and 2): the four blocks
   * come out as 3, 1, 7, 5.
   */
  method PriorityTaking(p1: Priority, p2: Priority) returns (firsts: seq<nat>)
    requires p1 < p2
    ensures firsts == [3, 1, 7, 5]
  {
    var s := InsertFour(Pair(7, 22, p2), Pair(5, 21, p2), Pair(3, 12, p1), Pair(1, 11, p1));
    PriorityPool(p1, p2);
    var a, b, c, d := Stamp(Pair(3, 12, p1), 3), Stamp(Pair(1, 11, p1), 4), Stamp(Pair(7, 22, p2), 1), Stamp(Pair(5, 21, p2), 2);
    var taken := TakeFour(s, a, b, c, d);
    FirstTokensOfFour(a, b, c, d);
    firsts := FirstTokens(taken);
  }

  /**
   * `test_basic_sequence_matching`, for any two distinct non-sentinel hashes: two blocks inserted
   * in order leave two available out of two; matching them by their hashes yields them in order
   * and leaves none available; returning them (tail first) makes both available again, while the
   * total stays 2 throughout.
   */
  method BasicSequenceMatching(h1: SequenceHash, h2: SequenceHash)
    returns (totalAfterInsert: nat, availableAfterInsert: nat,
             matchedHashes: seq<SequenceHash>, totalAfterMatch: nat, availableAfterMatch: nat,
             total: nat, availableAfterReturn: nat)
    requires h1 != SENTINEL && h2 != SENTINEL && h1 != h2
    ensures totalAfterInsert == 2 && availableAfterInsert == 2
    ensures matchedHashes == [h1, h2]
    ensures totalAfterMatch == 2 && availableAfterMatch == 0
    ensures total == 2 && availableAfterReturn == 2
  {
    var s := new AvailableBlocksState();
    InsertTwo(s, Pair(1, h1, 0), Pair(3, h2, 0));
    totalAfterInsert, availableAfterInsert := s.totalBlocks, s.availableBlocks;
    TwoInserts(Pair(1, h1, 0), Pair(3, h2, 0));
    ghost var m := s.pool.lookupMap;
    var matched := s.MatchHashes([h1, h2]);
    assert [h1, h2][1..] == [h2] && [h2][1..] == [];
    assert matched == [m[h1], (m - {h1})[h2]];
    matchedHashes := [matched[0].sequenceHash, matched[1].sequenceHash];
    totalAfterMatch, availableAfterMatch := s.totalBlocks, s.availableBlocks;
    s.HandleReturn(matched[1]);
    s.HandleReturn(matched[0]);
    total, availableAfterReturn := s.totalBlocks, s.availableBlocks;
  }
}
