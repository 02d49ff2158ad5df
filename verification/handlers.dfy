/**
 * The loops of the `AvailableBlocksState` handlers (lib/llm/src/kv/reuse.rs), run on the three
 * collections. Each loop keeps a progress predicate that says what it has handed out or moved so
 * far; a closing lemma turns the predicate at the exit into what the whole handler does.
 */
module Handlers {
  import opened Blocks
  import opened ReuseSpec
  import opened Pools

  /**
   * One round of `update_block` on a resident block: taking it out and filing it again with the
   * update's priority is legal, and changes the lookup map as `UpdateOne` says and nothing else.
   */
  lemma UpdateStep(p: Pool, tick: nat, u: UpdateBlock)
    requires Consistent(p, tick) && u.hash in p.lookupMap
    ensures var t, b := TakeHash(p, tick, u.hash), Reprioritised(p.lookupMap[u.hash], u.priority);
            && Fileable(t.pool, tick, b)
            && Filed(t.pool, tick, b).lookupMap == UpdateOne(p.lookupMap, u)
            && Filed(t.pool, tick, b).uninitializedSet == p.uninitializedSet
  {
    var t, b := TakeHash(p, tick, u.hash), Reprioritised(p.lookupMap[u.hash], u.priority);
    ResidentHash(p, tick, u.hash);
    TakenIsFileable(p, tick, u.hash, b);
    FiledRouting(t.pool, tick, b);
    assert (p.lookupMap - {u.hash})[u.hash := b] == UpdateOne(p.lookupMap, u);
  }

  /**
   * After `i` rounds of `update_block`'s loop: the indices are consistent, the queue is untouched,
   * and applying the remaining updates to the current lookup map gives what all of them give.
   */
  ghost predicate UpdateProgress(p0: Pool, tick: nat, updates: seq<UpdateBlock>, i: nat, p: Pool) {
    && i <= |updates|
    && Consistent(p, tick)
    && p.uninitializedSet == p0.uninitializedSet
    && ApplyUpdates(p0.lookupMap, updates) == ApplyUpdates(p.lookupMap, updates[i..])
  }

  /** One round of `update_block`'s loop keeps the progress predicate. */
  lemma UpdateRound(p0: Pool, tick: nat, updates: seq<UpdateBlock>, i: nat, p: Pool)
    requires UpdateProgress(p0, tick, updates, i, p) && i < |updates|
    ensures var u := updates[i];
            u.hash in p.lookupMap ==>
              var t, b := TakeHash(p, tick, u.hash), Reprioritised(p.lookupMap[u.hash], u.priority);
              Fileable(t.pool, tick, b) && UpdateProgress(p0, tick, updates, i + 1, Filed(t.pool, tick, b))
    ensures updates[i].hash !in p.lookupMap ==> UpdateProgress(p0, tick, updates, i + 1, p)
  {
    var u := updates[i];
    assert updates[i..][0] == u && updates[i..][1..] == updates[i + 1..];
    if u.hash in p.lookupMap {
      UpdateStep(p, tick, u);
    }
  }

  /**
   * The loop of `update_block`: each resident block named by an update is taken out, given the
   * update's priority if it carries one, and filed again with its own tick. The lookup map ends as
   * `ApplyUpdates` says, and the queue is not touched.
   */
  method UpdateLoop(p0: Pool, tick: nat, updates: seq<UpdateBlock>) returns (p: Pool)
    requires Consistent(p0, tick)
    ensures Consistent(p, tick)
    ensures p.lookupMap == ApplyUpdates(p0.lookupMap, updates)
    ensures p.uninitializedSet == p0.uninitializedSet
  {
    p := p0;
    for i := 0 to |updates|
      invariant UpdateProgress(p0, tick, updates, i, p)
    {
      var update := updates[i];
      UpdateRound(p0, tick, updates, i, p);
      var t := TakeHash(p, tick, update.hash);
      if t.block.Some? {
        p := Filed(t.pool, tick, Reprioritised(t.block.value, update.priority));
      }
    }
    assert updates[|updates|..] == [];
  }

  /**
   * The loop of `handle_reset`: each resident block named in the list is taken out, its identity
   * cleared, and filed again, which sends it to the back of the queue. The lookup map and the
   * queue end as `ResetHashes` says.
   */
  method ResetLoop(p0: Pool, tick: nat, hashes: seq<SequenceHash>) returns (p: Pool)
    requires Consistent(p0, tick)
    ensures Consistent(p, tick)
    ensures p.lookupMap == ResetHashes(p0.lookupMap, hashes).0
    ensures p.uninitializedSet == p0.uninitializedSet + ResetHashes(p0.lookupMap, hashes).1
  {
    p := p0;
    assert p0.uninitializedSet + ResetHashes(p0.lookupMap, hashes).1 == p.uninitializedSet + ResetHashes(p.lookupMap, hashes[0..]).1;
    for i := 0 to |hashes|
      invariant Consistent(p, tick)
      invariant ResetHashes(p0.lookupMap, hashes).0 == ResetHashes(p.lookupMap, hashes[i..]).0
      invariant p0.uninitializedSet + ResetHashes(p0.lookupMap, hashes).1 == p.uninitializedSet + ResetHashes(p.lookupMap, hashes[i..]).1
    {
      var h := hashes[i];
      assert hashes[i..][0] == h && hashes[i..][1..] == hashes[i + 1..];
      var t := TakeHash(p, tick, h);
      if t.block.Some? {
        var b := ResetBlock(t.block.value);
        ghost var rest := ResetHashes(p.lookupMap - {h}, hashes[i + 1..]).1;
        assert p.uninitializedSet + ([b] + rest) == (p.uninitializedSet + [b]) + rest;
        p := Filed(t.pool, tick, b);
      }
    }
    assert hashes[|hashes|..] == [];
  }

  /** What a run of `take`s hands out, in order, and the pool it leaves. */
  datatype Drawn = Drawn(blocks: seq<Block>, pool: Pool)

  /**
   * `n` more successive `take`s after `acc` was handed out, stopping at the first that finds the
   * pool dry.
   */
  function TakeFrom(p: Pool, tick: nat, n: nat, acc: seq<Block>): (r: Drawn)
    requires Consistent(p, tick)
    ensures Consistent(r.pool, tick)
    ensures |r.blocks| == |acc| + Min(n, Size(p))
    ensures Size(r.pool) == Size(p) - (|r.blocks| - |acc|)
    decreases n
  {
    if n == 0 then
      Drawn(acc, p)
    else
      var t := TakeNext(p, tick);
      if t.block.None? then Drawn(acc, p) else TakeFrom(t.pool, tick, n - 1, acc + [t.block.value])
  }

  /** `handle_take`'s loop as a function of the pool it starts from: `count` successive `take`s. */
  function TakeMany(p: Pool, tick: nat, count: nat): (r: Drawn)
    requires Consistent(p, tick)
    ensures Consistent(r.pool, tick)
    ensures |r.blocks| == Min(count, Size(p))
    ensures Size(r.pool) == Size(p) - |r.blocks|
  {
    TakeFrom(p, tick, count, [])
  }

  /** A `take` that finds a block is the first of the `n` and leaves `n - 1` to go. */
  lemma TakeFromOnce(p: Pool, tick: nat, n: nat, acc: seq<Block>)
    requires Consistent(p, tick) && n > 0 && TakeNext(p, tick).block.Some?
    ensures var t := TakeNext(p, tick);
            TakeFrom(p, tick, n, acc) == TakeFrom(t.pool, tick, n - 1, acc + [t.block.value])
  {
  }

  /**
   * `handle_take`'s loop hands out the front of the queue first and then the resident blocks in
   * priority-set order, and the pool loses exactly those.
   */
  lemma TakeManyOutcome(p0: Pool, tick: nat, count: nat)
    requires Consistent(p0, tick)
    ensures var r := TakeMany(p0, tick, count);
            TakeOutcome(p0, count, r.blocks, r.pool)
  {
    var i, taken, p := TakeRun(p0, tick, count);
    KeysResident(p0, tick);
    TakeDone(p0, tick, count, i, taken, p);
  }

  /** Replays `TakeMany` one round at a time, keeping `TakeProgress` as it goes. */
  lemma TakeRun(p0: Pool, tick: nat, count: nat) returns (i: nat, taken: seq<Block>, p: Pool)
    requires Consistent(p0, tick)
    ensures Consistent(p, tick) && TakeProgress(p0, tick, i, taken, p)
    ensures TakeMany(p0, tick, count) == Drawn(taken, p)
  {
    var u0 := p0.uninitializedSet;
    assert u0[..0] == [] && u0[0..] == u0;
    var n;
    i, n, taken, p := 0, count, [], p0;
    while n > 0 && TakeNext(p, tick).block.Some?
      invariant i + n == count
      invariant Consistent(p, tick) && TakeProgress(p0, tick, i, taken, p)
      invariant TakeFrom(p, tick, n, taken) == TakeMany(p0, tick, count)
    {
      var t := TakeNext(p, tick);
      TakeStep(p0, tick, i, taken, p);
      TakeFromOnce(p, tick, n, taken);
      i, n, taken, p := i + 1, n - 1, taken + [t.block.value], t.pool;
    }
  }

  /**
   * After `i` rounds of `handle_take`'s loop: while the queue lasts, the blocks taken are its
   * first `i`; after that, they are the whole queue followed by the blocks of the first keys of
   * the priority set, in order. The collections have lost exactly those.
   */
  ghost predicate TakeProgress(p0: Pool, tick: nat, i: nat, taken: seq<Block>, p: Pool) {
    var u0, m0, ps0 := p0.uninitializedSet, p0.lookupMap, p0.prioritySet;
    && |taken| == i && Size(p) == Size(p0) - i
    && (forall h :: h in p.lookupMap ==> h in m0 && p.lookupMap[h] == m0[h])
    && if i <= |u0| then
         taken == u0[..i] && p.uninitializedSet == u0[i..] && p.prioritySet == ps0
       else
         && p.uninitializedSet == []
         && taken[..|u0|] == u0
         && i - |u0| <= |ps0|
         && p.prioritySet == ps0[i - |u0|..]
         && forall x :: 0 <= x < i - |u0| ==> ps0[x].sequenceHash in m0 && taken[|u0| + x] == m0[ps0[x].sequenceHash]
  }

  /** One more `take` that finds a block keeps the progress predicate. */
  lemma TakeStep(p0: Pool, tick: nat, i: nat, taken: seq<Block>, p: Pool)
    requires Consistent(p, tick) && TakeProgress(p0, tick, i, taken, p)
    requires TakeNext(p, tick).block.Some?
    ensures var t := TakeNext(p, tick);
            TakeProgress(p0, tick, i + 1, taken + [t.block.value], t.pool)
  {
    if p.uninitializedSet == [] {
      TakeStepIndexed(p0, tick, i, taken, p);
    } else {
      TakeStepQueued(p0, tick, i, taken, p);
    }
  }

  /** A `take` served from the front of the queue. */
  lemma TakeStepQueued(p0: Pool, tick: nat, i: nat, taken: seq<Block>, p: Pool)
    requires Consistent(p, tick) && TakeProgress(p0, tick, i, taken, p)
    requires p.uninitializedSet != []
    ensures var t := TakeNext(p, tick);
            t.block.Some? && TakeProgress(p0, tick, i + 1, taken + [t.block.value], t.pool)
  {
    var u0 := p0.uninitializedSet;
    assert i < |u0|;
    assert u0[..i + 1] == u0[..i] + [u0[i]];
    assert u0[i..][1..] == u0[i + 1..];
  }

  /** A `take` served from the first key of the priority set. */
  lemma TakeStepIndexed(p0: Pool, tick: nat, i: nat, taken: seq<Block>, p: Pool)
    requires Consistent(p, tick) && TakeProgress(p0, tick, i, taken, p)
    requires p.uninitializedSet == [] && p.prioritySet != []
    ensures var t := TakeNext(p, tick);
            t.block.Some? && TakeProgress(p0, tick, i + 1, taken + [t.block.value], t.pool)
  {
    var u0, m0, ps0 := p0.uninitializedSet, p0.lookupMap, p0.prioritySet;
    assert i >= |u0|;
    assert i == |u0| ==> taken == u0 && p.prioritySet == ps0;
    var h := p.prioritySet[0].sequenceHash;
    var t := TakeNext(p, tick);
    assert p.prioritySet[0] == ps0[i - |u0|];
    assert t.block.value == m0[h];
    var taken' := taken + [t.block.value];
    assert taken'[..|u0|] == taken[..|u0|];
    forall x | 0 <= x < i + 1 - |u0| ensures taken'[|u0| + x] == m0[ps0[x].sequenceHash] {
      if x < i - |u0| {
        assert taken'[|u0| + x] == taken[|u0| + x];
      }
    }
    assert t.pool.prioritySet == ps0[i + 1 - |u0|..] by {
      assert ps0[i - |u0|..][1..] == ps0[i + 1 - |u0|..];
    }
  }

  /**
   * What `handle_take` promises: of `count` requests, the first `k` are served from the front of
   * the queue and the next `j` from the first keys of the priority set, in key order; the pool
   * keeps the rest of the queue, the rest of the priority set and a sub-map of the lookup map.
   */
  ghost predicate TakeOutcome(p0: Pool, count: nat, taken: seq<Block>, p: Pool) {
    var u, m, ps := p0.uninitializedSet, p0.lookupMap, p0.prioritySet;
    var k := Min(count, |u|);
    var j := Min(count - k, |ps|);
    && |taken| == k + j
    && taken[..k] == u[..k]
    && (forall x :: 0 <= x < j ==> ps[x].sequenceHash in m && taken[k + x] == m[ps[x].sequenceHash])
    && p.uninitializedSet == u[k..]
    && p.prioritySet == ps[j..]
    && (forall h :: h in p.lookupMap ==> h in m && p.lookupMap[h] == m[h])
  }

  /** The loop of `handle_take` stops after `count` blocks or when the pool runs dry. */
  lemma TakeDone(p0: Pool, tick: nat, count: nat, i: nat, taken: seq<Block>, p: Pool)
    requires |p0.prioritySet| == |p0.lookupMap|
    requires TakeProgress(p0, tick, i, taken, p)
    requires |taken| == Min(count, Size(p0))
    ensures TakeOutcome(p0, count, taken, p)
  {
    if i <= |p0.uninitializedSet| {
      TakeDoneQueued(p0, tick, count, i, taken, p);
    } else {
      TakeDoneIndexed(p0, tick, count, i, taken, p);
    }
  }

  /** Stopping while the queue lasts: nothing was drawn from the priority set. */
  lemma TakeDoneQueued(p0: Pool, tick: nat, count: nat, i: nat, taken: seq<Block>, p: Pool)
    requires |p0.prioritySet| == |p0.lookupMap|
    requires TakeProgress(p0, tick, i, taken, p) && i <= |p0.uninitializedSet|
    requires |taken| == Min(count, Size(p0))
    ensures TakeOutcome(p0, count, taken, p)
  {
    assert Min(count, |p0.uninitializedSet|) == i && Min(count - i, |p0.prioritySet|) == 0;
  }

  /** Stopping past the queue: the first `i - |queue|` keys of the priority set were drawn. */
  lemma TakeDoneIndexed(p0: Pool, tick: nat, count: nat, i: nat, taken: seq<Block>, p: Pool)
    requires |p0.prioritySet| == |p0.lookupMap|
    requires TakeProgress(p0, tick, i, taken, p) && i > |p0.uninitializedSet|
    requires |taken| == Min(count, Size(p0))
    ensures TakeOutcome(p0, count, taken, p)
  {
    var u := p0.uninitializedSet;
    assert Min(count, |u|) == |u| && Min(count - |u|, |p0.prioritySet|) == i - |u|;
  }

  /**
   * After some rounds of `handle_reset_all`'s loop: the first `k` keys of the priority set are
   * gone, and their blocks, identity cleared, follow the original queue in key order.
   */
  ghost predicate ResetAllProgress(p0: Pool, tick: nat, p: Pool) {
    var u0, m0, ps0 := p0.uninitializedSet, p0.lookupMap, p0.prioritySet;
    var k := |ps0| - |p.prioritySet|;
    && Consistent(p, tick)
    && Size(p) == Size(p0)
    && 0 <= k && p.prioritySet == ps0[k..]
    && (forall h :: h in p.lookupMap ==> h in m0 && p.lookupMap[h] == m0[h])
    && |p.uninitializedSet| == |u0| + k
    && p.uninitializedSet[..|u0|] == u0
    && (forall x :: 0 <= x < k ==> ps0[x].sequenceHash in m0 && p.uninitializedSet[|u0| + x] == ResetBlock(m0[ps0[x].sequenceHash]))
  }

  /**
   * One round of `handle_reset_all` keeps the progress predicate: the first key names a resident
   * block (the source panics otherwise), which leaves both indices and is filed again cleared.
   */
  lemma ResetAllStep(p0: Pool, tick: nat, p: Pool)
    requires ResetAllProgress(p0, tick, p) && p.prioritySet != []
    ensures p.prioritySet[0].sequenceHash in p.lookupMap
    ensures var h := p.prioritySet[0].sequenceHash;
            ResetAllProgress(p0, tick, Filed(Pool(p.uninitializedSet, p.lookupMap - {h}, p.prioritySet[1..]), tick, ResetBlock(p.lookupMap[h])))
  {
    var h := p.prioritySet[0].sequenceHash;
    MapRemoveSize(p.lookupMap, h);
    assert p0.prioritySet[|p0.prioritySet| - |p.prioritySet|] == p.prioritySet[0];
  }

  /**
   * `handle_reset_all` empties both indices: every resident block, in priority-set order and with
   * its identity cleared, joins the back of the queue.
   */
  lemma ResetAllDone(p0: Pool, tick: nat, p: Pool)
    requires ResetAllProgress(p0, tick, p) && p.prioritySet == []
    ensures var u, m, ps := p0.uninitializedSet, p0.lookupMap, p0.prioritySet;
            && p.lookupMap == map[]
            && |p.uninitializedSet| == |u| + |ps|
            && p.uninitializedSet[..|u|] == u
            && forall x :: 0 <= x < |ps| ==> ps[x].sequenceHash in m && p.uninitializedSet[|u| + x] == ResetBlock(m[ps[x].sequenceHash])
  {
  }

  /** The loop of `handle_reset_all`: pop the first key until the priority set is empty. */
  method ResetAllLoop(p0: Pool, tick: nat) returns (p: Pool)
    requires Consistent(p0, tick)
    ensures ResetAllProgress(p0, tick, p) && p.prioritySet == []
  {
    p := p0;
    assert p.uninitializedSet[..|p0.uninitializedSet|] == p0.uninitializedSet;
    while p.prioritySet != []
      invariant ResetAllProgress(p0, tick, p)
      decreases |p.prioritySet|
    {
      ResetAllStep(p0, tick, p);
      var h := p.prioritySet[0].sequenceHash;
      var b := p.lookupMap[h];
      p := Filed(Pool(p.uninitializedSet, p.lookupMap - {h}, p.prioritySet[1..]), tick, ResetBlock(b));
    }
  }
}
