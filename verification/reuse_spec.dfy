/**
 * What the handlers of `AvailableBlocksState` (lib/llm/src/kv/reuse.rs) compute, stated on values:
 * the invariant that ties the priority set to the lookup map, and the effect of match, update and
 * reset on the lookup map.
 */
module ReuseSpec {
  import opened Blocks
  import PrioritySet

  /** A pending priority change for one resident block. The request's inert deadline is not modelled. */
  datatype UpdateBlock = UpdateBlock(hash: SequenceHash, priority: Option<Priority>)

  /**
   * Index consistency: `ps` lists, in eviction order, exactly the keys of the blocks of `m`; every
   * block is filed under its own non-sentinel hash, and no block's tick is ahead of the engine's.
   */
  ghost predicate Indexes(ps: seq<PriorityKey>, m: map<SequenceHash, Block>, tick: nat) {
    && PrioritySet.Sorted(ps)
    && |ps| == |m|
    && (forall i :: 0 <= i < |ps| ==> ps[i].sequenceHash in m && KeyOf(m[ps[i].sequenceHash]) == ps[i])
    && (forall h :: h in m ==> h != SENTINEL && m[h].sequenceHash == h && m[h].returnTick <= tick && KeyOf(m[h]) in ps)
  }

  /** No two resident blocks share a tick. */
  ghost predicate DistinctTicks(m: map<SequenceHash, Block>) {
    forall h1, h2 :: h1 in m && h2 in m && h1 != h2 ==> m[h1].returnTick != m[h2].returnTick
  }

  lemma MapRemoveSize<V>(m: map<SequenceHash, V>, h: SequenceHash)
    requires h in m
    ensures |m - {h}| == |m| - 1
  {
    assert (m - {h}).Keys == m.Keys - {h};
  }

  /** A block whose tick no resident block carries has no Ord-equal key in the priority set. */
  lemma FreshTickHasNoRank(ps: seq<PriorityKey>, m: map<SequenceHash, Block>, tick: nat, b: Block)
    requires Indexes(ps, m, tick)
    requires forall h :: h in m ==> m[h].returnTick != b.returnTick
    ensures !PrioritySet.HasRank(ps, KeyOf(b))
  {
    forall i | 0 <= i < |ps| ensures Compare(ps[i], KeyOf(b)) != Equal {
      assert m[ps[i].sequenceHash].returnTick == ps[i].returnTick;
    }
  }

  /** Every key of `ps'` that is `k` or a key of `ps` points at its own block of `m[h := b]`. */
  lemma LinksAfterInsert(ps: seq<PriorityKey>, ps': seq<PriorityKey>, m: map<SequenceHash, Block>, b: Block)
    requires forall i :: 0 <= i < |ps| ==> ps[i].sequenceHash in m && KeyOf(m[ps[i].sequenceHash]) == ps[i]
    requires b.sequenceHash !in m
    requires forall x :: x in ps' <==> x in ps || x == KeyOf(b)
    ensures var m' := m[b.sequenceHash := b];
            forall i :: 0 <= i < |ps'| ==> ps'[i].sequenceHash in m' && KeyOf(m'[ps'[i].sequenceHash]) == ps'[i]
  {
    var m' := m[b.sequenceHash := b];
    forall i | 0 <= i < |ps'|
      ensures ps'[i].sequenceHash in m' && KeyOf(m'[ps'[i].sequenceHash]) == ps'[i]
    {
      var x := ps'[i];
      assert x in ps';
      if x != KeyOf(b) {
        var j :| 0 <= j < |ps| && ps[j] == x;
        assert m'[x.sequenceHash] == m[x.sequenceHash];
      }
    }
  }

  /** Every block of `m[h := b]` has its key in `ps'` when `ps'` holds `KeyOf(b)` and the keys of `m`. */
  lemma ResidentsAfterInsert(ps: seq<PriorityKey>, ps': seq<PriorityKey>, m: map<SequenceHash, Block>, tick: nat, b: Block)
    requires forall h :: h in m ==> h != SENTINEL && m[h].sequenceHash == h && m[h].returnTick <= tick && KeyOf(m[h]) in ps
    requires b.sequenceHash != SENTINEL && b.returnTick <= tick
    requires forall x :: x in ps' <==> x in ps || x == KeyOf(b)
    ensures var m' := m[b.sequenceHash := b];
            forall h :: h in m' ==> h != SENTINEL && m'[h].sequenceHash == h && m'[h].returnTick <= tick && KeyOf(m'[h]) in ps'
  {
    var m' := m[b.sequenceHash := b];
    forall h | h in m'
      ensures h != SENTINEL && m'[h].sequenceHash == h && m'[h].returnTick <= tick && KeyOf(m'[h]) in ps'
    {
      if h != b.sequenceHash {
        assert m'[h] == m[h];
      }
    }
  }

  /**
   * `insert` of a block with a new non-sentinel hash, a tick no later than the engine's and no
   * Ord-equal key in the priority set (the source asserts this) keeps the indices consistent.
   */
  lemma IndexesInsert(ps: seq<PriorityKey>, m: map<SequenceHash, Block>, tick: nat, b: Block)
    requires Indexes(ps, m, tick)
    requires b.sequenceHash != SENTINEL && b.sequenceHash !in m && b.returnTick <= tick
    requires !PrioritySet.HasRank(ps, KeyOf(b))
    ensures Indexes(PrioritySet.Insert(ps, KeyOf(b)), m[b.sequenceHash := b], tick)
  {
    var ps' := PrioritySet.Insert(ps, KeyOf(b));
    var m' := m[b.sequenceHash := b];
    assert |m'| == |ps'| by {
      assert m'.Keys == m.Keys + {b.sequenceHash};
    }
    LinksAfterInsert(ps, ps', m, b);
    ResidentsAfterInsert(ps, ps', m, tick, b);
  }

  /** A block whose tick no resident block carries keeps the resident ticks distinct. */
  lemma DistinctTicksInsert(m: map<SequenceHash, Block>, b: Block)
    requires DistinctTicks(m)
    requires forall h :: h in m && h != b.sequenceHash ==> m[h].returnTick != b.returnTick
    ensures DistinctTicks(m[b.sequenceHash := b])
  {
    var m' := m[b.sequenceHash := b];
    forall h1, h2 | h1 in m' && h2 in m' && h1 != h2 ensures m'[h1].returnTick != m'[h2].returnTick {
      if h1 != b.sequenceHash && h2 != b.sequenceHash {
        assert m'[h1] == m[h1] && m'[h2] == m[h2];
      }
    }
  }

  /** Removing a block keeps the resident ticks distinct. */
  lemma DistinctTicksRemove(m: map<SequenceHash, Block>, h: SequenceHash)
    requires DistinctTicks(m)
    ensures DistinctTicks(m - {h})
  {
    var m' := m - {h};
    forall h1, h2 | h1 in m' && h2 in m' && h1 != h2 ensures m'[h1].returnTick != m'[h2].returnTick {
      assert m'[h1] == m[h1] && m'[h2] == m[h2];
    }
  }

  /** Every key that survives removal from `ps` still points at its own block once `h` leaves `m`. */
  lemma LinksAfterRemove(ps: seq<PriorityKey>, ps': seq<PriorityKey>, m: map<SequenceHash, Block>, h: SequenceHash)
    requires forall i :: 0 <= i < |ps| ==> ps[i].sequenceHash in m && KeyOf(m[ps[i].sequenceHash]) == ps[i]
    requires h in m
    requires forall x :: x in ps' ==> x in ps && x != KeyOf(m[h])
    ensures forall i :: 0 <= i < |ps'| ==> ps'[i].sequenceHash in m - {h} && KeyOf((m - {h})[ps'[i].sequenceHash]) == ps'[i]
  {
    forall j | 0 <= j < |ps'|
      ensures ps'[j].sequenceHash in m - {h} && KeyOf((m - {h})[ps'[j].sequenceHash]) == ps'[j]
    {
      assert ps'[j] in ps';
      var j' :| 0 <= j' < |ps| && ps[j'] == ps'[j];
    }
  }

  /** In a strictly sorted set, a key at another position is never Ord-equal to `ps[i]`. */
  lemma OthersRankApart(ps: seq<PriorityKey>, i: nat, j: nat)
    requires PrioritySet.Sorted(ps) && i < |ps| && j < |ps| && i != j
    ensures Compare(ps[j], ps[i]) != Equal
  {
    if j < i {
      assert Compare(ps[j], ps[i]) == Less;
    } else {
      assert Compare(ps[i], ps[j]) == Less;
    }
  }

  /**
   * `take_with_sequence_hash` on a resident hash keeps the indices consistent: the priority set
   * holds exactly one key Ord-equal to the block's, its own, and only that key leaves.
   */
  lemma IndexesRemove(ps: seq<PriorityKey>, m: map<SequenceHash, Block>, tick: nat, h: SequenceHash)
    requires Indexes(ps, m, tick) && h in m
    ensures PrioritySet.HasRank(ps, KeyOf(m[h]))
    ensures Indexes(PrioritySet.Remove(ps, KeyOf(m[h])), m - {h}, tick)
  {
    var k := KeyOf(m[h]);
    var i :| 0 <= i < |ps| && ps[i] == k;
    assert Compare(ps[i], k) == Equal;
    var ps', m' := PrioritySet.Remove(ps, k), m - {h};
    MapRemoveSize(m, h);
    LinksAfterRemove(ps, ps', m, h);
    forall h' | h' in m' ensures KeyOf(m'[h']) in ps' {
      var j :| 0 <= j < |ps| && ps[j] == KeyOf(m[h']);
      OthersRankApart(ps, i, j);
    }
  }

  /**
   * `pop_first` on a consistent priority set: the first key belongs to a resident block, that
   * block ranks strictly before every other resident block, and dropping it from both indices
   * keeps them consistent.
   */
  lemma IndexesPopFirst(ps: seq<PriorityKey>, m: map<SequenceHash, Block>, tick: nat)
    requires Indexes(ps, m, tick) && |ps| > 0
    ensures ps[0].sequenceHash in m && KeyOf(m[ps[0].sequenceHash]) == ps[0]
    ensures forall h :: h in m && h != ps[0].sequenceHash ==> Compare(ps[0], KeyOf(m[h])) == Less
    ensures Indexes(ps[1..], m - {ps[0].sequenceHash}, tick)
  {
    var h0 := ps[0].sequenceHash;
    forall h | h in m && h != h0 ensures Compare(ps[0], KeyOf(m[h])) == Less {
      var j :| 0 <= j < |ps| && ps[j] == KeyOf(m[h]);
      assert j != 0;
    }
    IndexesRemove(ps, m, tick, h0);
    PrioritySet.RemoveFirst(ps);
  }

  /** The priority set is a function of the lookup map: consistent indices admit one eviction order. */
  lemma IndexesDetermined(ps1: seq<PriorityKey>, ps2: seq<PriorityKey>, m: map<SequenceHash, Block>, tick: nat)
    requires Indexes(ps1, m, tick) && Indexes(ps2, m, tick)
    ensures ps1 == ps2
  {
    forall x ensures x in ps1 <==> x in ps2 {
      if x in ps1 {
        var i :| 0 <= i < |ps1| && ps1[i] == x;
      }
      if x in ps2 {
        var i :| 0 <= i < |ps2| && ps2[i] == x;
      }
    }
    PrioritySet.SortedUnique(ps1, ps2);
  }

  /**
   * Index consistency with distinct ticks, one key at a time: the first key of the priority set
   * belongs to a resident block filed under its own non-sentinel hash, with a tick no later than
   * the engine's and shared by no other resident block; it ranks strictly before the next key; and
   * the rest of the set lists the remaining residents in the same way. An empty set lists an
   * empty map.
   */
  ghost predicate Lists(ps: seq<PriorityKey>, m: map<SequenceHash, Block>, tick: nat)
    decreases |ps|
  {
    if ps == [] then
      m == map[]
    else
      var h := ps[0].sequenceHash;
      && h in m && h != SENTINEL && m[h].sequenceHash == h && KeyOf(m[h]) == ps[0] && m[h].returnTick <= tick
      && (|ps| > 1 ==> Compare(ps[0], ps[1]) == Less)
      && (forall h' :: h' in m && h' != h ==> m[h'].returnTick != m[h].returnTick)
      && Lists(ps[1..], m - {h}, tick)
  }

  /** Consistency survives a later tick: advancing `return_tick` never breaks the indices. */
  lemma {:induction false} ListsLater(ps: seq<PriorityKey>, m: map<SequenceHash, Block>, tick: nat, later: nat)
    requires Lists(ps, m, tick) && tick <= later
    ensures Lists(ps, m, later)
    decreases |ps|
  {
    if ps != [] {
      ListsLater(ps[1..], m - {ps[0].sequenceHash}, tick, later);
    }
  }

  /** All-at-once consistency implies key-by-key consistency. */
  lemma {:induction false} IndexesToLists(ps: seq<PriorityKey>, m: map<SequenceHash, Block>, tick: nat)
    requires Indexes(ps, m, tick) && DistinctTicks(m)
    ensures Lists(ps, m, tick)
    decreases |ps|
  {
    if ps == [] {
      assert |m| == 0;
    } else {
      IndexesPopFirst(ps, m, tick);
      DistinctTicksRemove(m, ps[0].sequenceHash);
      IndexesToLists(ps[1..], m - {ps[0].sequenceHash}, tick);
    }
  }

  /**
   * Consistency is built one key at a time: a resident block ranked before every key of
   * consistent indices for the other residents extends them.
   */
  lemma IndexesCons(ps: seq<PriorityKey>, m: map<SequenceHash, Block>, tick: nat)
    requires ps != []
    requires var h := ps[0].sequenceHash;
             && h in m && h != SENTINEL && m[h].sequenceHash == h && KeyOf(m[h]) == ps[0] && m[h].returnTick <= tick
             && (|ps| > 1 ==> Compare(ps[0], ps[1]) == Less)
             && Indexes(ps[1..], m - {h}, tick)
    ensures Indexes(ps, m, tick)
  {
    var h, ps', m' := ps[0].sequenceHash, ps[1..], m - {ps[0].sequenceHash};
    MapRemoveSize(m, h);
    PrioritySet.SortedCons(ps);
    forall i | 0 < i < |ps| ensures ps[i].sequenceHash in m && KeyOf(m[ps[i].sequenceHash]) == ps[i] {
      assert ps[i] == ps'[i - 1];
    }
    forall h' | h' in m
      ensures h' != SENTINEL && m[h'].sequenceHash == h' && m[h'].returnTick <= tick && KeyOf(m[h']) in ps
    {
      if h' != h {
        assert h' in m' && m'[h'] == m[h'];
        var j :| 0 <= j < |ps'| && ps'[j] == KeyOf(m'[h']);
        assert ps[j + 1] == ps'[j];
      }
    }
  }

  /** Key-by-key consistency implies all-at-once consistency. */
  lemma {:induction false} ListsToIndexes(ps: seq<PriorityKey>, m: map<SequenceHash, Block>, tick: nat)
    requires Lists(ps, m, tick)
    ensures Indexes(ps, m, tick) && DistinctTicks(m)
    decreases |ps|
  {
    if ps != [] {
      var h := ps[0].sequenceHash;
      ListsToIndexes(ps[1..], m - {h}, tick);
      IndexesCons(ps, m, tick);
      forall h1, h2 | h1 in m && h2 in m && h1 != h2 ensures m[h1].returnTick != m[h2].returnTick {
        if h1 != h && h2 != h {
          assert (m - {h})[h1] == m[h1] && (m - {h})[h2] == m[h2];
        }
      }
    }
  }

  /**
   * `insert` of a block with a new non-sentinel hash, a tick no later than the engine's and no
   * resident block's tick keeps key-by-key consistency.
   */
  lemma ListsInsert(ps: seq<PriorityKey>, m: map<SequenceHash, Block>, tick: nat, b: Block)
    requires Lists(ps, m, tick)
    requires b.sequenceHash != SENTINEL && b.sequenceHash !in m && b.returnTick <= tick
    requires forall h :: h in m ==> m[h].returnTick != b.returnTick
    ensures PrioritySet.Sorted(ps) && !PrioritySet.HasRank(ps, KeyOf(b))
    ensures Lists(PrioritySet.Insert(ps, KeyOf(b)), m[b.sequenceHash := b], tick)
  {
    ListsToIndexes(ps, m, tick);
    FreshTickHasNoRank(ps, m, tick, b);
    IndexesInsert(ps, m, tick, b);
    DistinctTicksInsert(m, b);
    IndexesToLists(PrioritySet.Insert(ps, KeyOf(b)), m[b.sequenceHash := b], tick);
  }

  /** `take_with_sequence_hash` of a resident hash keeps key-by-key consistency. */
  lemma ListsRemove(ps: seq<PriorityKey>, m: map<SequenceHash, Block>, tick: nat, h: SequenceHash)
    requires Lists(ps, m, tick) && h in m
    ensures PrioritySet.Sorted(ps)
    ensures Lists(PrioritySet.Remove(ps, KeyOf(m[h])), m - {h}, tick)
  {
    ListsToIndexes(ps, m, tick);
    IndexesRemove(ps, m, tick, h);
    DistinctTicksRemove(m, h);
    IndexesToLists(PrioritySet.Remove(ps, KeyOf(m[h])), m - {h}, tick);
  }

  /** The blocks filed under the hashes of `ks`, in the order of `ks`. */
  function BlocksAt(m: map<SequenceHash, Block>, ks: seq<PriorityKey>): (r: seq<Block>)
    requires forall i :: 0 <= i < |ks| ==> ks[i].sequenceHash in m
    ensures |r| == |ks|
    ensures forall i :: 0 <= i < |r| ==> r[i] == m[ks[i].sequenceHash]
  {
    if ks == [] then [] else BlocksAt(m, ks[..|ks| - 1]) + [m[ks[|ks| - 1].sequenceHash]]
  }

  /**
   * Eviction order: the blocks of the first `p` keys of a consistent priority set come out in
   * strictly ascending (priority, tick) order, and each ranks strictly before every block left behind.
   */
  lemma EvictionOrder(ps: seq<PriorityKey>, m: map<SequenceHash, Block>, tick: nat, p: nat)
    requires Indexes(ps, m, tick) && p <= |ps|
    ensures forall i :: 0 <= i < p ==> ps[i].sequenceHash in m
    ensures var taken := BlocksAt(m, ps[..p]);
            && (forall i, j :: 0 <= i < j < p ==> Compare(KeyOf(taken[i]), KeyOf(taken[j])) == Less)
            && (forall i, j :: 0 <= i < p <= j < |ps| ==> Compare(KeyOf(taken[i]), KeyOf(m[ps[j].sequenceHash])) == Less)
  {
  }

  /**
   * The blocks `match_hashes` claims: it walks `hs` in order, claiming each resident hash (which
   * leaves the map) and stopping at the first hash that is not resident.
   */
  function MatchPrefix(m: map<SequenceHash, Block>, hs: seq<SequenceHash>): (r: seq<Block>)
    ensures |r| <= |hs|
    decreases |hs|
  {
    if hs == [] || hs[0] !in m then [] else [m[hs[0]]] + MatchPrefix(m - {hs[0]}, hs[1..])
  }

  /** The lookup map left behind by the same walk. */
  function MatchRemaining(m: map<SequenceHash, Block>, hs: seq<SequenceHash>): (r: map<SequenceHash, Block>)
    ensures forall h :: h in r ==> h in m && r[h] == m[h]
    decreases |hs|
  {
    if hs == [] || hs[0] !in m then m else MatchRemaining(m - {hs[0]}, hs[1..])
  }

  /** Match claims, in input order, the blocks of resident hashes that are pairwise distinct. */
  lemma {:induction false} MatchClaimsResident(m: map<SequenceHash, Block>, hs: seq<SequenceHash>)
    ensures forall i :: 0 <= i < |MatchPrefix(m, hs)| ==> hs[i] in m && MatchPrefix(m, hs)[i] == m[hs[i]]
    ensures forall i, j :: 0 <= i < j < |MatchPrefix(m, hs)| ==> hs[i] != hs[j]
    decreases |hs|
  {
    if hs != [] && hs[0] in m {
      var m0 := m - {hs[0]};
      MatchClaimsResident(m0, hs[1..]);
      var r', r := MatchPrefix(m0, hs[1..]), MatchPrefix(m, hs);
      assert r == [m[hs[0]]] + r';
      forall i | 0 < i < |r| ensures hs[i] in m0 && r[i] == m[hs[i]] {
        assert hs[i] == hs[1..][i - 1] && r[i] == r'[i - 1];
      }
    }
  }

  /**
   * Match stops at the first miss: the hash after the claimed prefix (if any) is not resident, or
   * repeats a hash the prefix already claimed.
   */
  lemma {:induction false} MatchStopsAtMiss(m: map<SequenceHash, Block>, hs: seq<SequenceHash>)
    ensures var n := |MatchPrefix(m, hs)|;
            n < |hs| ==> hs[n] !in m || hs[n] in hs[..n]
    decreases |hs|
  {
    if hs != [] && hs[0] in m {
      var m0 := m - {hs[0]};
      MatchStopsAtMiss(m0, hs[1..]);
      var n' := |MatchPrefix(m0, hs[1..])|;
      var n := |MatchPrefix(m, hs)|;
      assert n == n' + 1;
      if n < |hs| {
        assert hs[n] == hs[1..][n'];
        assert hs[..n] == [hs[0]] + hs[1..][..n'];
      }
    }
  }

  /** Exactly the claimed hashes leave the lookup map; every other entry stays as it was. */
  lemma {:induction false} MatchRemovesClaimed(m: map<SequenceHash, Block>, hs: seq<SequenceHash>)
    ensures forall h :: h in MatchRemaining(m, hs) <==> h in m && h !in hs[..|MatchPrefix(m, hs)|]
    ensures forall h :: h in MatchRemaining(m, hs) ==> MatchRemaining(m, hs)[h] == m[h]
    decreases |hs|
  {
    if hs != [] && hs[0] in m {
      var m0 := m - {hs[0]};
      MatchRemovesClaimed(m0, hs[1..]);
      var n' := |MatchPrefix(m0, hs[1..])|;
      var n := |MatchPrefix(m, hs)|;
      assert n == n' + 1;
      assert hs[..n] == [hs[0]] + hs[1..][..n'];
    } else {
      assert hs[..0] == [];
    }
  }

  /** Match neither loses nor gains a block: what it claims and what it leaves add up to the map. */
  lemma {:induction false} MatchSizes(m: map<SequenceHash, Block>, hs: seq<SequenceHash>)
    ensures |MatchPrefix(m, hs)| + |MatchRemaining(m, hs)| == |m|
    decreases |hs|
  {
    if hs != [] && hs[0] in m {
      MatchSizes(m - {hs[0]}, hs[1..]);
      MapRemoveSize(m, hs[0]);
    }
  }

  /** When every hash is resident and no hash repeats, match claims all of them, in order. */
  lemma MatchAllResident(m: map<SequenceHash, Block>, hs: seq<SequenceHash>)
    requires forall i :: 0 <= i < |hs| ==> hs[i] in m
    requires forall i, j :: 0 <= i < j < |hs| ==> hs[i] != hs[j]
    ensures |MatchPrefix(m, hs)| == |hs|
    ensures forall i :: 0 <= i < |hs| ==> MatchPrefix(m, hs)[i] == m[hs[i]]
  {
    MatchClaimsResident(m, hs);
    MatchStopsAtMiss(m, hs);
    forall i | 0 <= i < |hs| ensures hs[i] !in hs[..i] {
      assert forall j :: 0 <= j < i ==> hs[..i][j] == hs[j];
    }
  }

  /**
   * A miss at position k ends the match there: exactly the first k blocks are claimed, even when
   * later hashes are resident.
   */
  lemma MatchStopsAtFirstMiss(m: map<SequenceHash, Block>, hs: seq<SequenceHash>, k: nat)
    requires k < |hs| && hs[k] !in m
    requires forall i :: 0 <= i < k ==> hs[i] in m
    requires forall i, j :: 0 <= i < j < k ==> hs[i] != hs[j]
    ensures |MatchPrefix(m, hs)| == k
    ensures forall i :: 0 <= i < k ==> MatchPrefix(m, hs)[i] == m[hs[i]]
  {
    MatchClaimsResident(m, hs);
    MatchStopsAtMiss(m, hs);
    forall i | 0 <= i < k ensures hs[i] !in hs[..i] {
      assert forall j :: 0 <= j < i ==> hs[..i][j] == hs[j];
    }
  }

  /** The block with its priority replaced when one is supplied. */
  function Reprioritised(b: Block, p: Option<Priority>): (r: Block)
    ensures r == b.(priority := r.priority)
    ensures r.priority == (if p.Some? then p.value else b.priority)
  {
    match p
    case Some(q) => b.(priority := q)
    case None => b
  }

  /** One iteration of `update_block`: a resident block is re-filed, possibly with a new priority. */
  function UpdateOne(m: map<SequenceHash, Block>, u: UpdateBlock): (r: map<SequenceHash, Block>)
    ensures r.Keys == m.Keys
    ensures forall h :: h in r && h != u.hash ==> r[h] == m[h]
    ensures u.hash in m ==> r[u.hash] == m[u.hash].(priority := r[u.hash].priority)
    ensures u.hash in m && u.priority.Some? ==> r[u.hash].priority == u.priority.value
    ensures u.priority.None? ==> r == m
  {
    if u.hash in m then m[u.hash := Reprioritised(m[u.hash], u.priority)] else m
  }

  /**
   * The lookup map after `update_block(us)`: the same hashes stay resident, and each block keeps
   * everything but (possibly) its priority.
   */
  function ApplyUpdates(m: map<SequenceHash, Block>, us: seq<UpdateBlock>): (r: map<SequenceHash, Block>)
    ensures r.Keys == m.Keys
    ensures forall h :: h in r ==> r[h] == m[h].(priority := r[h].priority)
    decreases |us|
  {
    if us == [] then m else ApplyUpdates(UpdateOne(m, us[0]), us[1..])
  }

  /** A block that no update with a priority names is left exactly as it was. */
  lemma {:induction false} UpdateLeavesOthers(m: map<SequenceHash, Block>, us: seq<UpdateBlock>, h: SequenceHash)
    requires h in m
    requires forall i :: 0 <= i < |us| ==> us[i].hash != h || us[i].priority.None?
    ensures ApplyUpdates(m, us)[h] == m[h]
    decreases |us|
  {
    if us != [] {
      assert UpdateOne(m, us[0])[h] == m[h];
      forall i | 0 <= i < |us[1..]| ensures us[1..][i].hash != h || us[1..][i].priority.None? {
        assert us[1..][i] == us[i + 1];
      }
      UpdateLeavesOthers(UpdateOne(m, us[0]), us[1..], h);
    }
  }

  /** The last update that supplies a priority for a resident hash decides that block's priority. */
  lemma {:induction false} UpdateLastPriorityWins(m: map<SequenceHash, Block>, us: seq<UpdateBlock>, h: SequenceHash, i: nat)
    requires h in m && i < |us|
    requires us[i].hash == h && us[i].priority.Some?
    requires forall j :: i < j < |us| ==> us[j].hash != h || us[j].priority.None?
    ensures ApplyUpdates(m, us)[h].priority == us[i].priority.value
    decreases |us|
  {
    var m1 := UpdateOne(m, us[0]);
    forall j | i <= j < |us[1..]| ensures us[1..][j].hash != h || us[1..][j].priority.None? {
      assert us[1..][j] == us[j + 1];
    }
    if i == 0 {
      UpdateLeavesOthers(m1, us[1..], h);
    } else {
      UpdateLastPriorityWins(m1, us[1..], h, i - 1);
    }
  }

  /**
   * The lookup map and the blocks appended to the uninitialized queue by `handle_reset(hs)`:
   * each listed hash that is resident leaves the map, and its block, identity cleared, joins the
   * queue in the order of the list. No block is lost or gained.
   */
  function ResetHashes(m: map<SequenceHash, Block>, hs: seq<SequenceHash>): (r: (map<SequenceHash, Block>, seq<Block>))
    ensures |r.0| + |r.1| == |m|
    decreases |hs|
  {
    if hs == [] then
      (m, [])
    else if hs[0] in m then
      MapRemoveSize(m, hs[0]);
      var rest := ResetHashes(m - {hs[0]}, hs[1..]);
      (rest.0, [ResetBlock(m[hs[0]])] + rest.1)
    else
      ResetHashes(m, hs[1..])
  }

  /**
   * Reset removes every listed hash from the lookup map and leaves every other entry alone; each
   * block it queues is a former resident block of a listed hash, with its identity cleared.
   */
  lemma ResetHashesEffect(m: map<SequenceHash, Block>, hs: seq<SequenceHash>)
    ensures forall h :: h in ResetHashes(m, hs).0 <==> h in m && h !in hs
    ensures forall h :: h in ResetHashes(m, hs).0 ==> ResetHashes(m, hs).0[h] == m[h]
    ensures forall i :: 0 <= i < |ResetHashes(m, hs).1| ==> ResetHashes(m, hs).1[i].sequenceHash == SENTINEL
    ensures forall i :: 0 <= i < |ResetHashes(m, hs).1| ==> ClearedFromList(m, hs, ResetHashes(m, hs).1[i])
  {
    ResetHashesMap(m, hs);
    ResetHashesCleared(m, hs);
    var q, o := ResetHashes(m, hs).1, ResetOrder(m, hs);
    ResetHashesQueue(m, hs);
    ResetOrderMembers(m, hs);
    forall i | 0 <= i < |q| ensures ClearedFromList(m, hs, q[i]) {
      var h := o[i];
      assert h in o;
      assert h in hs && h in m && q[i] == ResetBlock(m[h]);
    }
  }

  /** `b` is the block of a listed hash that was resident, with its identity cleared. */
  ghost predicate ClearedFromList(m: map<SequenceHash, Block>, hs: seq<SequenceHash>, b: Block) {
    exists h :: h in hs && h in m && b == ResetBlock(m[h])
  }

  /** The lookup map after a reset: the listed hashes are gone and every other entry is unchanged. */
  lemma {:induction false} ResetHashesMap(m: map<SequenceHash, Block>, hs: seq<SequenceHash>)
    ensures forall h :: h in ResetHashes(m, hs).0 <==> h in m && h !in hs
    ensures forall h :: h in ResetHashes(m, hs).0 ==> ResetHashes(m, hs).0[h] == m[h]
    decreases |hs|
  {
    if hs != [] {
      if hs[0] in m {
        ResetHashesMap(m - {hs[0]}, hs[1..]);
      } else {
        ResetHashesMap(m, hs[1..]);
      }
    }
  }

  /** Every block a reset queues carries the sentinel hash. */
  lemma {:induction false} ResetHashesCleared(m: map<SequenceHash, Block>, hs: seq<SequenceHash>)
    ensures forall i :: 0 <= i < |ResetHashes(m, hs).1| ==> ResetHashes(m, hs).1[i].sequenceHash == SENTINEL
    decreases |hs|
  {
    if hs != [] {
      if hs[0] in m {
        var m0 := m - {hs[0]};
        ResetHashesCleared(m0, hs[1..]);
        var rest, q := ResetHashes(m0, hs[1..]).1, ResetHashes(m, hs).1;
        assert q == [ResetBlock(m[hs[0]])] + rest;
      } else {
        ResetHashesCleared(m, hs[1..]);
      }
    }
  }

  /**
   * The hashes whose blocks `handle_reset(hs)` queues, in queue order: each listed hash that is
   * still resident when the loop reaches it, so a repeated hash counts once, at its first place.
   */
  function ResetOrder(m: map<SequenceHash, Block>, hs: seq<SequenceHash>): (r: seq<SequenceHash>)
    ensures forall k :: 0 <= k < |r| ==> r[k] in m
    decreases |hs|
  {
    if hs == [] then
      []
    else if hs[0] in m then
      [hs[0]] + ResetOrder(m - {hs[0]}, hs[1..])
    else
      ResetOrder(m, hs[1..])
  }

  /**
   * The reset order holds each listed resident hash exactly once, and in the order in which the
   * list first names them: every place of a later hash in the list comes after a place of each
   * earlier one.
   */
  lemma ResetOrderFacts(m: map<SequenceHash, Block>, hs: seq<SequenceHash>)
    ensures forall x :: x in ResetOrder(m, hs) <==> x in hs && x in m
    ensures forall k1, k2 :: 0 <= k1 < k2 < |ResetOrder(m, hs)| ==> ResetOrder(m, hs)[k1] != ResetOrder(m, hs)[k2]
    ensures forall k1, k2, i :: 0 <= k1 < k2 < |ResetOrder(m, hs)| && 0 <= i < |hs| && hs[i] == ResetOrder(m, hs)[k2] ==>
              ResetOrder(m, hs)[k1] in hs[..i]
  {
    ResetOrderMembers(m, hs);
    ResetOrderDistinct(m, hs);
    ResetOrderFirstSeen(m, hs);
  }

  /** The reset order holds exactly the listed hashes that are resident. */
  lemma {:induction false} ResetOrderMembers(m: map<SequenceHash, Block>, hs: seq<SequenceHash>)
    ensures forall x :: x in ResetOrder(m, hs) <==> x in hs && x in m
    decreases |hs|
  {
    if hs != [] {
      if hs[0] in m {
        ResetOrderMembers(m - {hs[0]}, hs[1..]);
      } else {
        ResetOrderMembers(m, hs[1..]);
      }
    }
  }

  /** The reset order names no hash twice. */
  lemma {:induction false} ResetOrderDistinct(m: map<SequenceHash, Block>, hs: seq<SequenceHash>)
    ensures forall k1, k2 :: 0 <= k1 < k2 < |ResetOrder(m, hs)| ==> ResetOrder(m, hs)[k1] != ResetOrder(m, hs)[k2]
    decreases |hs|
  {
    if hs != [] {
      var h0 := hs[0];
      if h0 in m {
        var m0 := m - {h0};
        ResetOrderDistinct(m0, hs[1..]);
        var o', o := ResetOrder(m0, hs[1..]), ResetOrder(m, hs);
        assert o == [h0] + o';
        assert forall k :: 0 < k < |o| ==> o[k] == o'[k - 1] && o[k] in m0;
      } else {
        ResetOrderDistinct(m, hs[1..]);
      }
    }
  }

  /** A hash comes later in the reset order only if the list names the earlier one first. */
  lemma {:induction false} ResetOrderFirstSeen(m: map<SequenceHash, Block>, hs: seq<SequenceHash>)
    ensures forall k1, k2, i :: 0 <= k1 < k2 < |ResetOrder(m, hs)| && 0 <= i < |hs| && hs[i] == ResetOrder(m, hs)[k2] ==>
              ResetOrder(m, hs)[k1] in hs[..i]
    decreases |hs|
  {
    if hs != [] {
      var h0 := hs[0];
      if h0 in m {
        var m0 := m - {h0};
        ResetOrderFirstSeen(m0, hs[1..]);
        var o', o := ResetOrder(m0, hs[1..]), ResetOrder(m, hs);
        assert o == [h0] + o';
        forall k1, k2, i | 0 <= k1 < k2 < |o| && 0 <= i < |hs| && hs[i] == o[k2]
          ensures o[k1] in hs[..i]
        {
          assert o[k2] == o'[k2 - 1] && o'[k2 - 1] in m0;
          assert i != 0;
          if k1 == 0 {
            assert hs[..i][0] == h0;
          } else {
            assert hs[1..][i - 1] == hs[i];
            assert o'[k1 - 1] in hs[1..][..i - 1];
            assert hs[..i] == [h0] + hs[1..][..i - 1];
          }
        }
      } else {
        ResetOrderFirstSeen(m, hs[1..]);
        var o := ResetOrder(m, hs);
        assert o == ResetOrder(m, hs[1..]);
        forall k1, k2, i | 0 <= k1 < k2 < |o| && 0 <= i < |hs| && hs[i] == o[k2]
          ensures o[k1] in hs[..i]
        {
          assert i != 0;
          assert hs[1..][i - 1] == hs[i];
          assert o[k1] in hs[1..][..i - 1];
          assert hs[..i] == [h0] + hs[1..][..i - 1];
        }
      }
    }
  }

  /** The blocks `handle_reset` appends to the queue are those of the reset order, cleared, one for one. */
  lemma {:induction false} ResetHashesQueue(m: map<SequenceHash, Block>, hs: seq<SequenceHash>)
    ensures var q, o := ResetHashes(m, hs).1, ResetOrder(m, hs);
            && |q| == |o|
            && forall k :: 0 <= k < |o| ==> q[k] == ResetBlock(m[o[k]])
    decreases |hs|
  {
    if hs != [] {
      if hs[0] in m {
        var m0 := m - {hs[0]};
        ResetHashesQueue(m0, hs[1..]);
        var q, o := ResetHashes(m, hs).1, ResetOrder(m, hs);
        assert forall k :: 0 < k < |o| ==> o[k] == ResetOrder(m0, hs[1..])[k - 1] && q[k] == ResetHashes(m0, hs[1..]).1[k - 1];
      } else {
        ResetHashesQueue(m, hs[1..]);
      }
    }
  }

  /**
   * Every listed resident block is queued, cleared, and in list order: a hash first named before
   * another has its block queued before the other's.
   */
  lemma ResetQueuesListedInOrder(m: map<SequenceHash, Block>, hs: seq<SequenceHash>)
    ensures forall h :: h in hs && h in m ==> ResetBlock(m[h]) in ResetHashes(m, hs).1
    ensures forall i, j :: 0 <= i < j < |hs| && hs[i] in m && hs[j] in m && hs[j] !in hs[..j] ==>
              QueuedBefore(m, hs, hs[i], hs[j])
  {
    ResetOrderFacts(m, hs);
    ResetHashesQueue(m, hs);
    var q, o := ResetHashes(m, hs).1, ResetOrder(m, hs);
    forall h | h in hs && h in m ensures ResetBlock(m[h]) in q {
      var k :| 0 <= k < |o| && o[k] == h;
      assert q[k] == ResetBlock(m[h]);
    }
    forall i, j | 0 <= i < j < |hs| && hs[i] in m && hs[j] in m && hs[j] !in hs[..j]
      ensures QueuedBefore(m, hs, hs[i], hs[j])
    {
      assert hs[i] in o && hs[j] in o;
      var k1 :| 0 <= k1 < |o| && o[k1] == hs[i];
      var k2 :| 0 <= k2 < |o| && o[k2] == hs[j];
      // hs[j] is not named before j, so not before i; were it queued first, it would be.
      assert hs[..j][..i] == hs[..i];
      assert hs[j] !in hs[..i];
      assert k1 != k2;
      assert k1 < k2;
      assert q[k1] == ResetBlock(m[hs[i]]) && q[k2] == ResetBlock(m[hs[j]]);
    }
  }

  /**
   * Reset queues the block of `a` before the block of `b`, both cleared, at the places the reset
   * order gives them.
   */
  ghost predicate QueuedBefore(m: map<SequenceHash, Block>, hs: seq<SequenceHash>, a: SequenceHash, b: SequenceHash) {
    var q, o := ResetHashes(m, hs).1, ResetOrder(m, hs);
    exists k1, k2 :: 0 <= k1 < k2 < |q| && k2 < |o| && o[k1] == a && o[k2] == b
      && q[k1] == ResetBlock(m[a]) && q[k2] == ResetBlock(m[b])
  }
}
