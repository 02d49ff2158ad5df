# Block-pool state engine of the KV reuse pool

This project models the engine behind the KV-cache reuse pool of `lib/llm/src/kv/reuse.rs`. The
engine is `AvailableBlocksState`. It is owned by one progress task and holds every block that is
free for reuse, in three collections:

- `lookup_map`: the blocks that have a content identity, by sequence hash;
- `priority_set`: a `BTreeMap<PriorityKey, SequenceHash>` that orders those blocks for eviction;
- `uninitialized_set`: a FIFO of blocks with the sentinel hash 0, or with a hash that is already
  resident.

It also keeps a `return_tick` and the `total_blocks` / `available_blocks` counters. Requests are
handled one at a time, each to completion. Blocks arrive through insert and return. They leave
through match (by hash) and take (by eviction order). Update re-ranks resident blocks, and
reset / reset_all strip their identity.

The modules:

- `Blocks`: the block, `PriorityKey` and its `Ord`. `Ord` compares priority, then return tick, and
  never the hash.
- `PrioritySet`: the `BTreeMap` as the strictly ascending sequence of its keys. Its value is always
  the key's own hash, so the keys carry the whole map.
- `ReuseSpec`: the invariant that ties the priority set to the lookup map (`Lists`, equivalently
  `Indexes` plus distinct ticks), and what match, update and reset do to the lookup map.
- `Pools`: the three collections as one value, `Pool`, with `insert`, `take_with_sequence_hash`
  and `take` as functions on it.
- `Handlers`: the loops of the handlers, as methods on `Pool` with their loop invariants.
- `Reuse`: the class `AvailableBlocksState`. Its fields are the collections, the tick and the
  counters. A ghost count of checked-out blocks gives `total_blocks == available_blocks + checkedOut`.
  Its methods are the handlers.
- `Scenarios`: the engine-level tests of the file, replayed on the class.

The class invariant `Valid` has three parts:

- the indices agree: same size, each key names its own resident block, no sentinel in either, and
  resident ticks are distinct and no later than `return_tick`;
- `available_blocks` equals `|lookup_map| + |uninitialized_set|`;
- `total_blocks` equals `available_blocks` plus the blocks handed out.

Every handler keeps `Valid`. Under it, neither `panic!` in `take` / `handle_reset_all` nor either
`assert!` in `insert` can fire.

A block with hash 0, or with a hash that is already resident, is appended to the uninitialized
queue (reuse.rs:267-273); it is not rejected, and the lookup map keeps one block per hash.

## Model

| member | source | states |
|---|---|---|
| Blocks.Compare | lib/llm/src/kv/reuse.rs:212-218 | Keys are Equal exactly when priority and return tick agree. A key is Less exactly when its priority is lower, or equal with an earlier tick. |
| Blocks.PartialCompare | lib/llm/src/kv/reuse.rs:206-210 | `partial_cmp` always answers, and agrees with `cmp`: Equal exactly when priority and tick agree, Less exactly when the priority is lower or equal with an earlier tick. |
| Blocks.CompareIsTotalOrder | lib/llm/src/kv/reuse.rs:212-218 | The order is reflexive-equal, antisymmetric and transitive, including across Equal. |
| Blocks.KeyOf | lib/llm/src/kv/reuse.rs:220-228 | The key of a block carries its priority, return tick and sequence hash, and nothing of its tokens. |
| Blocks.ResetBlock | lib/llm/src/kv/reuse.rs:496-497 | `KvBlock::reset` clears the hash to the sentinel and keeps tokens, priority and tick, so the block's key ranks where it did. |
| Blocks.HashIsNotCompared | lib/llm/src/kv/reuse.rs:198-218 | Two keys that differ only in hash are Ord-Equal but not `==`, since `PartialEq` is derived. |
| PrioritySet.Insert | lib/llm/src/kv/reuse.rs:276-281 | `BTreeMap::insert` of a key with no Ord-equal entry gives a sorted set holding exactly the old keys plus the new one, one longer. |
| PrioritySet.Remove | lib/llm/src/kv/reuse.rs:298 | `BTreeMap::remove` keeps the set sorted, drops exactly the Ord-equal key, and shrinks by one exactly when such a key was held. |
| PrioritySet.FirstIsLeast | lib/llm/src/kv/reuse.rs:358 | `pop_first` yields a key strictly below every remaining key, and the rest stays sorted. |
| PrioritySet.RemoveFirst | lib/llm/src/kv/reuse.rs:358-367 | Removing the first key by `remove` leaves what `pop_first` leaves: the rest of the set, in order. |
| PrioritySet.SortedUnique | lib/llm/src/kv/reuse.rs:235-236 | Two sorted sets with the same keys are equal: the map has one iteration order. |
| PrioritySet.InsertBetween | lib/llm/src/kv/reuse.rs:276-281 | A key ranked after the first n keys and before the rest lands at position n. Nothing else moves, and no Ord-equal key was present. |
| PrioritySet.KeyOrderExample | lib/llm/src/kv/reuse.rs:635-698 | Keys (0,1), (1,0), (0,2) inserted in that order iterate and pop as (0,1), (0,2), (1,0), each with its own hash. |
| ReuseSpec.FreshTickHasNoRank | lib/llm/src/kv/reuse.rs:276-281 | A block whose tick no resident carries has no Ord-equal key in the priority set, so the insert assertion cannot fire. |
| ReuseSpec.IndexesInsert | lib/llm/src/kv/reuse.rs:275-288 | Filing a block with a new non-sentinel hash and a fresh key into both indices keeps them consistent. |
| ReuseSpec.IndexesRemove | lib/llm/src/kv/reuse.rs:295-299 | A resident block's key is in the priority set, and removing both entries keeps the indices consistent. |
| ReuseSpec.IndexesPopFirst | lib/llm/src/kv/reuse.rs:358-367 | The first key names a resident block that ranks strictly before every other resident, and dropping it from both indices keeps them consistent. |
| ReuseSpec.IndexesDetermined | lib/llm/src/kv/reuse.rs:230-240 | The lookup map determines the priority set: two consistent priority sets for the same map are equal. |
| ReuseSpec.ListsLater | lib/llm/src/kv/reuse.rs:450 | Advancing `return_tick` never breaks consistency. |
| ReuseSpec.IndexesToLists | lib/llm/src/kv/reuse.rs:230-240 | The all-at-once invariant with distinct ticks implies the key-by-key invariant. |
| ReuseSpec.ListsToIndexes | lib/llm/src/kv/reuse.rs:230-240 | The key-by-key invariant implies the all-at-once invariant and distinct ticks. |
| ReuseSpec.ListsInsert | lib/llm/src/kv/reuse.rs:263-289 | `insert` of a new non-sentinel hash with a fresh tick meets the source's assertion and keeps consistency. |
| ReuseSpec.ListsRemove | lib/llm/src/kv/reuse.rs:291-303 | `take_with_sequence_hash` of a resident hash keeps consistency. |
| ReuseSpec.EvictionOrder | lib/llm/src/kv/reuse.rs:349-370 | The blocks of the first p keys come out strictly ascending by (priority, tick), each before every block left behind. |
| ReuseSpec.MatchPrefix | lib/llm/src/kv/reuse.rs:312-319 | The blocks the loop of `match_hashes` claims, at most one per hash; `MatchClaimsResident`, `MatchStopsAtMiss` and `MatchAllResident` say which. |
| ReuseSpec.MatchRemaining | lib/llm/src/kv/reuse.rs:312-319 | The lookup map the same loop leaves: a sub-map of the old one, every entry unchanged. |
| ReuseSpec.MatchClaimsResident | lib/llm/src/kv/reuse.rs:313-319 | Match claims, in input order, the resident blocks of pairwise distinct hashes. |
| ReuseSpec.MatchStopsAtMiss | lib/llm/src/kv/reuse.rs:313-319 | The hash after the claimed prefix is not resident, or repeats a claimed hash. |
| ReuseSpec.MatchRemovesClaimed | lib/llm/src/kv/reuse.rs:291-319 | Exactly the claimed hashes leave the lookup map, and every other entry is unchanged. |
| ReuseSpec.MatchSizes | lib/llm/src/kv/reuse.rs:305-324 | What match claims plus what it leaves add up to the lookup map. |
| ReuseSpec.MatchAllResident | lib/llm/src/kv/reuse.rs:305-324 | With every hash resident and none repeated, match returns all of them, in order. |
| ReuseSpec.MatchStopsAtFirstMiss | lib/llm/src/kv/reuse.rs:313-319 | A miss at position k ends the match with exactly the first k blocks, even if later hashes are resident. |
| ReuseSpec.Reprioritised | lib/llm/src/kv/reuse.rs:480-482 | A block differs from the original at most in its priority, which is the update's when it supplies one and the block's own otherwise. |
| ReuseSpec.UpdateOne | lib/llm/src/kv/reuse.rs:479-488 | One round of `update_block`: the same hashes stay resident, other blocks are untouched, the named resident block changes at most in priority and takes the supplied one, and an update without a priority changes nothing. |
| ReuseSpec.ApplyUpdates | lib/llm/src/kv/reuse.rs:477-491 | `update_block` keeps the same resident hashes. Each block keeps everything but possibly its priority, so its tick and hash are unchanged. |
| ReuseSpec.UpdateLeavesOthers | lib/llm/src/kv/reuse.rs:477-491 | A block that no priority-carrying update names is left exactly as it was. This includes non-resident hashes being no-ops. |
| ReuseSpec.UpdateLastPriorityWins | lib/llm/src/kv/reuse.rs:479-482 | The last update that supplies a priority for a resident hash decides that block's priority. |
| ReuseSpec.ResetHashes | lib/llm/src/kv/reuse.rs:493-500 | Reset neither loses nor gains a block: the map left plus the blocks queued add up to the old map. |
| ReuseSpec.ResetHashesEffect | lib/llm/src/kv/reuse.rs:493-500 | Every listed hash leaves the map and every other entry stays. Each queued block is a former resident of a listed hash with its hash cleared to 0. |
| ReuseSpec.ResetHashesMap | lib/llm/src/kv/reuse.rs:493-500 | After a reset the map holds exactly the unlisted residents, each with its old block. |
| ReuseSpec.ResetHashesCleared | lib/llm/src/kv/reuse.rs:496-497 | Every block a reset queues carries the sentinel hash 0. |
| ReuseSpec.ResetOrder | lib/llm/src/kv/reuse.rs:494-498 | The hashes whose blocks `handle_reset` queues, in queue order; each is resident. |
| ReuseSpec.ResetOrderFacts | lib/llm/src/kv/reuse.rs:494-498 | The reset order holds exactly the listed resident hashes, each once, in the order the list first names them. |
| ReuseSpec.ResetOrderMembers | lib/llm/src/kv/reuse.rs:494-498 | The reset order holds a hash exactly when the list names it and it is resident. |
| ReuseSpec.ResetOrderDistinct | lib/llm/src/kv/reuse.rs:494-498 | No hash appears twice in the reset order, so a repeated hash is reset once. |
| ReuseSpec.ResetOrderFirstSeen | lib/llm/src/kv/reuse.rs:494-498 | A hash comes later in the reset order only if the list names the earlier hash before every place of the later one. |
| ReuseSpec.ResetHashesQueue | lib/llm/src/kv/reuse.rs:494-498 | The queued blocks are, one for one and in order, the cleared blocks of the reset order. |
| ReuseSpec.ResetQueuesListedInOrder | lib/llm/src/kv/reuse.rs:494-498 | Every listed resident block is queued, cleared; a hash named before another's first place has its block queued before the other's. |
| Pools.Filed | lib/llm/src/kv/reuse.rs:263-289 | `insert` keeps the indices consistent and adds exactly one available block. |
| Pools.FiledRouting | lib/llm/src/kv/reuse.rs:267-288 | A sentinel or resident hash joins the back of the queue and the indices are untouched. Any other block becomes the resident of its hash and its key joins the priority set. |
| Pools.TakeHash | lib/llm/src/kv/reuse.rs:291-303 | Yields the resident block of the hash, or None. It removes exactly that hash, keeps consistency and the queue, and leaves the pool unchanged on a miss. |
| Pools.TakeNext | lib/llm/src/kv/reuse.rs:349-370 | `take` yields None exactly when the pool is empty, and otherwise removes one block and keeps consistency. |
| Pools.TakeNextChoice | lib/llm/src/kv/reuse.rs:349-370 | `take` serves the queue front first. Otherwise it serves the resident block that ranks strictly before every other resident and drops it from both indices. |
| Pools.StampIsFileable | lib/llm/src/kv/reuse.rs:445-466 | After the tick advances, the indices stay consistent and a block stamped with the new tick meets `insert`'s assertions. |
| Pools.Stamped | lib/llm/src/kv/reuse.rs:445-466 | Stamping and filing keeps consistency under the new tick and adds one available block. |
| Pools.StampedBetween | lib/llm/src/kv/reuse.rs:445-466 | A new block lands after every key of no higher priority and before every key of higher priority, so equal priorities leave first-in first-out. |
| Pools.SameMapSamePool | lib/llm/src/kv/reuse.rs:230-240 | Consistent collections with the same queue and lookup map are equal: the map fixes the priority set. |
| Pools.InsertThenMatch | lib/llm/src/kv/reuse.rs:445-466 | Round trip of `handle_insert` / `handle_return` and `take_with_sequence_hash`: a block with a new non-sentinel hash comes back stamped with the new tick, later than every earlier tick, and the collections are restored exactly. |
| Pools.TakenIsFileable | lib/llm/src/kv/reuse.rs:477-500 | A block taken by hash may be filed again with its own tick, under its own hash or the sentinel: re-inserts never trip `insert`'s assertions. |
| Pools.ResidentHash | lib/llm/src/kv/reuse.rs:263-289 | A resident block is filed under its own non-sentinel hash. |
| Pools.KeysResident | lib/llm/src/kv/reuse.rs:358-367 | The priority set and lookup map have equal sizes, and every key names a resident block, so `take`'s panic is unreachable. |
| Handlers.UpdateStep | lib/llm/src/kv/reuse.rs:479-489 | One round of `update_block` on a resident block is legal and changes the map exactly as one update says. |
| Handlers.UpdateRound | lib/llm/src/kv/reuse.rs:478-490 | A round of the update loop keeps its progress invariant, whether or not the hash is resident. |
| Handlers.UpdateLoop | lib/llm/src/kv/reuse.rs:477-491 | The loop keeps consistency, ends with the map `ApplyUpdates` gives, and does not touch the queue. |
| Handlers.ResetLoop | lib/llm/src/kv/reuse.rs:493-500 | The loop keeps consistency and ends with the map and queue `ResetHashes` gives. |
| Handlers.TakeStep | lib/llm/src/kv/reuse.rs:376-383 | One more successful `take` keeps the take-loop invariant: queue first, then priority order. |
| Handlers.TakeStepQueued | lib/llm/src/kv/reuse.rs:352-354 | A `take` served from the queue front keeps the take-loop invariant. |
| Handlers.TakeStepIndexed | lib/llm/src/kv/reuse.rs:358-367 | A `take` served from the first priority key keeps the take-loop invariant. |
| Handlers.TakeFrom | lib/llm/src/kv/reuse.rs:376-383 | `n` more `take`s after `acc` add `min(n, available)` blocks after `acc`, keep consistency, and shrink the pool by the number added. |
| Handlers.TakeMany | lib/llm/src/kv/reuse.rs:376-383 | `count` successive `take`s hand out `min(count, available)` blocks, keep consistency, and shrink the pool by that many. |
| Handlers.TakeFromOnce | lib/llm/src/kv/reuse.rs:376-383 | One round of the loop that finds a block leaves `n - 1` rounds to run after that block. |
| Handlers.TakeRun | lib/llm/src/kv/reuse.rs:376-383 | Running the loop round by round keeps the take-loop invariant, queue first and then priority order, and ends where `TakeMany` ends. |
| Handlers.TakeDone | lib/llm/src/kv/reuse.rs:372-394 | Once the loop has taken `min(count, available)` blocks, they are the queue front followed by residents in priority order. Exactly those leave, and untaken residents are unchanged. |
| Handlers.TakeDoneQueued | lib/llm/src/kv/reuse.rs:352-354 | Stopping while the queue lasts: the blocks out are the queue's front and the priority set is untouched. |
| Handlers.TakeDoneIndexed | lib/llm/src/kv/reuse.rs:358-367 | Stopping past the queue: the whole queue, then the blocks of the first priority keys in order, are out. |
| Handlers.TakeManyOutcome | lib/llm/src/kv/reuse.rs:372-394 | `count` successive `take`s hand out the queue front first, then residents in priority order. The pool loses exactly those. |
| Handlers.ResetAllStep | lib/llm/src/kv/reuse.rs:504-511 | The first key names a resident block, so the panic is unreachable, and one round keeps the reset-all invariant. |
| Handlers.ResetAllDone | lib/llm/src/kv/reuse.rs:502-512 | At exit the map is empty and every former resident, in priority order and with its hash cleared, follows the old queue. |
| Handlers.ResetAllLoop | lib/llm/src/kv/reuse.rs:502-512 | The `while let pop_first` loop terminates with an empty priority set and its invariant kept. |
| Reuse.AvailableBlocksState.constructor | lib/llm/src/kv/reuse.rs:252-261 | A new state is empty, at tick 0, with zero counters, and valid. |
| Reuse.AvailableBlocksState.Insert | lib/llm/src/kv/reuse.rs:263-289 | The in-place `insert` leaves the collections `Filed` describes. |
| Reuse.AvailableBlocksState.TakeWithSequenceHash | lib/llm/src/kv/reuse.rs:291-303 | The in-place removal yields the block and leaves the collections `TakeHash` describes. |
| Reuse.AvailableBlocksState.MatchHashes | lib/llm/src/kv/reuse.rs:305-324 | Hands out `MatchPrefix` of the hashes and leaves `MatchRemaining`, with the queue unchanged. Available drops by exactly the number matched, and validity is kept. |
| Reuse.AvailableBlocksState.ClaimHashes | lib/llm/src/kv/reuse.rs:312-319 | The loop of `match_hashes`, calling `TakeWithSequenceHash` per hash, claims exactly the blocks `MatchPrefix` names, leaves the map `MatchRemaining` describes, and leaves the queue alone. |
| Reuse.AvailableBlocksState.HandleMatchSingle | lib/llm/src/kv/reuse.rs:326-336 | Yields the resident block of the hash or None, removes only that hash, and counts it off available. |
| Reuse.AvailableBlocksState.Take | lib/llm/src/kv/reuse.rs:349-370 | The in-place `take` yields the block and leaves the collections `TakeNext` describes. |
| Reuse.AvailableBlocksState.HandleTake | lib/llm/src/kv/reuse.rs:372-394 | Hands out `min(count, available)` blocks, queue front first and then residents in priority order. The collections lose exactly those, available drops by that many, and validity is kept. |
| Reuse.AvailableBlocksState.TakeBlocks | lib/llm/src/kv/reuse.rs:376-383 | The loop of `handle_take` calls `Take` until `count` blocks are out or the pool is empty. It hands out exactly the blocks `TakeMany` names and leaves the pool `TakeMany` describes. |
| Reuse.AvailableBlocksState.HandleInsert | lib/llm/src/kv/reuse.rs:445-456 | Advances the tick, stamps the block with it and files it. Total and available each rise by one, and validity is kept. |
| Reuse.AvailableBlocksState.HandleReturn | lib/llm/src/kv/reuse.rs:457-466 | The same stamping and filing as insert. Available rises by one, total is unchanged, and one fewer block is checked out. |
| Reuse.AvailableBlocksState.UpdateBlock | lib/llm/src/kv/reuse.rs:476-491 | The lookup map becomes `ApplyUpdates` of the updates, the queue and counters are unchanged, and validity is kept. |
| Reuse.AvailableBlocksState.HandleUpdateSingle | lib/llm/src/kv/reuse.rs:468-470 | One update applied as `UpdateOne` says. |
| Reuse.AvailableBlocksState.HandleReset | lib/llm/src/kv/reuse.rs:493-500 | The map and the queue's new tail are as `ResetHashes` says, the counters are unchanged, and validity is kept. |
| Reuse.AvailableBlocksState.HandleResetAll | lib/llm/src/kv/reuse.rs:502-512 | Both indices end empty, and every former resident, in priority order and with hash 0, follows the old queue. |
| Scenarios.FirstTokens | lib/llm/src/kv/reuse.rs:798-801 | The first token of each block, in order. |
| Scenarios.TwoInserts | lib/llm/src/kv/reuse.rs:445-456 | Two inserts into a new pool, at rising or equal priority, leave both blocks resident in arrival order. |
| Scenarios.SecondSequencePool | lib/llm/src/kv/reuse.rs:784-787 | The first two inserts of the ordering tests leave `[7,8]` then `[5,6]` resident. |
| Scenarios.EqualPriorityThird | lib/llm/src/kv/reuse.rs:784-792 | At equal priority, a third block ranks last. |
| Scenarios.EqualPriorityPool | lib/llm/src/kv/reuse.rs:764-802 | Four blocks at one priority rank in arrival order: 7, 5, 3, 1. |
| Scenarios.PriorityPool | lib/llm/src/kv/reuse.rs:804-845 | Lower-priority blocks rank first despite arriving last, with arrival order kept within each priority: 3, 1, 7, 5. |
| Scenarios.InsertTwo | lib/llm/src/kv/reuse.rs:445-456 | Two `handle_insert`s stamp consecutive ticks and add two blocks to total and available. |
| Scenarios.InsertFour | lib/llm/src/kv/reuse.rs:784-792 | Four inserts into a new state give total 4 and available 4. |
| Scenarios.TakeFour | lib/llm/src/kv/reuse.rs:794-795 | Taking four from four resident blocks with an empty queue yields them in priority-set order. |
| Scenarios.EqualPriorityTaking | lib/llm/src/kv/reuse.rs:764-802 | `test_equal_priority_taking`: the blocks come out as 7, 5, 3, 1, at any common priority. |
| Scenarios.PriorityTaking | lib/llm/src/kv/reuse.rs:804-845 | `test_priority_taking`: the blocks come out as 3, 1, 7, 5, for any priorities p1 < p2. |
| Scenarios.BasicSequenceMatching | lib/llm/src/kv/reuse.rs:719-762 | `test_basic_sequence_matching`: two inserted blocks match by hash in order. Total stays 2 while available goes 2, then 0, then 2 after both are returned. |

## Left out

- The `AvailableBlocks` client façade (reuse.rs:11-148, 162-196) and `progress_engine`
  (reuse.rs:588-626), including the fence barrier: these are async channel plumbing and
  scheduling. The model calls each handler directly, one at a time.
- `handle_match_request` and `handle_control_request` (reuse.rs:396-444) only dispatch to the
  handlers and send replies. `handle_match_multiple` (reuse.rs:338-347) and
  `handle_update_multiple` (reuse.rs:472-474) are `match_hashes` and `update_block` plus a channel
  send, so `MatchHashes` and `UpdateBlock` stand for them.
- `ReturnHandleImpl` and `create_pool_item` (reuse.rs:150-160, 314, 379) are external pool utility. A
  return is a direct call to `HandleReturn` with a block previously handed out, and handed-out
  blocks are the blocks themselves, not pool items.
- The counters are `Arc<AtomicU64>`. They are modelled as plain `nat` fields, so memory ordering
  is not modelled. The ghost `checkedOut` count is not in the source.
- Logging, and the inert `deadline` field of `UpdateBlock` (reuse.rs:484-486).
- `return_tick` is a `u64` in the source and an unbounded `nat` here. A wrap-around after 2^64
  returns is not modelled, and the distinct-tick invariant relies on there being none.
- `KvBlock::reset` is not shown in the repository file. It is modelled as setting the sequence
  hash to the sentinel 0 and keeping tokens, priority and tick, which is what makes
  `handle_reset_all` terminate. Token hashing and `create_blocks` are not modelled: the scenarios
  use fixed distinct non-sentinel constants (or parameters) for the tests' sequence hashes.
- The three collections are held as one `pool` value that each step reassigns. `match_hashes`
  and `handle_take` loop in the class over `TakeWithSequenceHash` and `Take`; the loops of
  `update_block`, `handle_reset` and `handle_reset_all` run on a `Pool` value (module `Handlers`)
  whose result is then assigned, instead of calling `Insert` on the object.
- Reuse.AvailableBlocksState.Insert: requires that a block it files into the indices has a tick no
  later than the engine's and carried by no resident block, at any priority. This is stronger than
  the source's run-time assertion, which only rules out a resident key with the same priority and
  the same tick (reuse.rs:277-281). Every caller in the file meets the stronger requirement because
  ticks are fresh (`StampIsFileable` for insert and return, `TakenIsFileable` for update and reset).
- Reuse.AvailableBlocksState.HandleReturn: requires at least one checked-out block. In the source
  a return only comes from an item this pool handed out.
- Scenarios.EqualPriorityTaking, Scenarios.PriorityTaking and Scenarios.BasicSequenceMatching: the
  priorities (and, in the last, the hashes) are parameters rather than the tests' literal 1 and 2.
  The contracts are therefore stronger than the tests, and cover those values.
- The Python example workers: async network wiring with no pool logic.
