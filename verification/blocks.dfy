/** Cache blocks and the eviction key that ranks them (lib/llm/src/kv/reuse.rs). */
module Blocks {

  /** Unsigned 32-bit integers: block priorities and take counts. */
  type U32 = x: int | 0 <= x < 0x1_0000_0000

  /** Unsigned 64-bit integers: sequence hashes. */
  type U64 = x: int | 0 <= x < 0x1_0000_0000_0000_0000

  /** Content address of a block; 0 is the sentinel meaning "no stable identity". */
  type SequenceHash = U64

  /** Eviction rank: a lower priority is evicted first. */
  type Priority = U32

  const SENTINEL: SequenceHash := 0

  datatype Option<T> = None | Some(value: T)

  /**
   * A KV-cache block. `tokens` stands for the block's token content (its memory); the pool never
   * looks at it. `returnTick` is stamped by the pool each time the block becomes available.
   */
  datatype Block = Block(tokens: seq<nat>, sequenceHash: SequenceHash, priority: Priority, returnTick: nat)

  /** The key of the priority set. Equality is over all three fields; the ORDER (Compare) is not. */
  datatype PriorityKey = PriorityKey(priority: Priority, returnTick: nat, sequenceHash: SequenceHash)

  datatype Ordering = Less | Equal | Greater

  /** The integer `cmp`. */
  function CompareInt(x: int, y: int): Ordering {
    if x < y then Less else if x == y then Equal else Greater
  }

  /** `Ordering::then`: the second comparison decides only a tie of the first. */
  function Then(first: Ordering, second: Ordering): Ordering {
    if first == Equal then second else first
  }

  /**
   * `Ord for PriorityKey`: priority ascending, then return tick ascending.
   * The sequence hash is carried as payload and never compared.
   */
  function Compare(a: PriorityKey, b: PriorityKey): (r: Ordering)
    ensures r == Equal <==> a.priority == b.priority && a.returnTick == b.returnTick
    ensures r == Less <==> a.priority < b.priority || (a.priority == b.priority && a.returnTick < b.returnTick)
  {
    Then(CompareInt(a.priority, b.priority), CompareInt(a.returnTick, b.returnTick))
  }

  /** `PartialOrd for PriorityKey` is `Some(cmp)`: it never answers "incomparable". */
  function PartialCompare(a: PriorityKey, b: PriorityKey): (r: Option<Ordering>)
    ensures r.Some?
    ensures r.value == Equal <==> a.priority == b.priority && a.returnTick == b.returnTick
    ensures r.value == Less <==> a.priority < b.priority || (a.priority == b.priority && a.returnTick < b.returnTick)
  {
    Some(Compare(a, b))
  }

  /** `From<&KvBlock> for PriorityKey`: the key carries the block's priority, tick and hash, and none of its tokens. */
  function KeyOf(b: Block): (r: PriorityKey)
    ensures r.priority == b.priority && r.returnTick == b.returnTick && r.sequenceHash == b.sequenceHash
  {
    PriorityKey(b.priority, b.returnTick, b.sequenceHash)
  }

  /**
   * `KvBlock::reset`: the block loses its content identity and keeps everything else, so its key
   * still ranks where it did.
   */
  function ResetBlock(b: Block): (r: Block)
    ensures r.sequenceHash == SENTINEL
    ensures r.tokens == b.tokens && r.priority == b.priority && r.returnTick == b.returnTick
    ensures Compare(KeyOf(r), KeyOf(b)) == Equal
  {
    b.(sequenceHash := SENTINEL)
  }

  /** Compare is a strict total order on (priority, returnTick): irreflexive, antisymmetric, transitive, total. */
  lemma CompareIsTotalOrder(a: PriorityKey, b: PriorityKey, c: PriorityKey)
    ensures Compare(a, a) == Equal
    ensures Compare(a, b) == Less <==> Compare(b, a) == Greater
    ensures Compare(a, b) == Equal <==> Compare(b, a) == Equal
    ensures Compare(a, b) == Less && Compare(b, c) == Less ==> Compare(a, c) == Less
    ensures Compare(a, b) == Equal && Compare(b, c) == Less ==> Compare(a, c) == Less
    ensures Compare(a, b) == Less && Compare(b, c) == Equal ==> Compare(a, c) == Less
  {
  }

  /** Two keys that differ only in their hash are Ord-equal but not `==` (PartialEq is derived). */
  lemma HashIsNotCompared(a: PriorityKey, h: SequenceHash)
    requires h != a.sequenceHash
    ensures Compare(a, a.(sequenceHash := h)) == Equal
    ensures a != a.(sequenceHash := h)
  {
  }
}
