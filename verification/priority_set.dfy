/**
 * The `BTreeMap<PriorityKey, SequenceHash>` that orders available blocks for eviction, as the
 * strictly ascending sequence of its keys under `Compare`. The map's value is always the key's own
 * sequence hash, so the keys alone carry the whole map.
 */
module PrioritySet {
  import opened Blocks

  /** Strictly ascending under Compare: the order in which the BTreeMap iterates and pops. */
  ghost predicate Sorted(s: seq<PriorityKey>) {
    forall i, j :: 0 <= i < j < |s| ==> Compare(s[i], s[j]) == Less
  }

  /** Some key of `s` is Ord-equal to `k`: the BTreeMap already holds an entry for `k`. */
  ghost predicate HasRank(s: seq<PriorityKey>, k: PriorityKey) {
    exists i :: 0 <= i < |s| && Compare(s[i], k) == Equal
  }

  /** `BTreeMap::insert` of a key the map does not hold yet (the source asserts it returns None). */
  function Insert(s: seq<PriorityKey>, k: PriorityKey): (r: seq<PriorityKey>)
    requires Sorted(s) && !HasRank(s, k)
    ensures Sorted(r)
    ensures |r| == |s| + 1
    ensures forall x :: x in r <==> x in s || x == k
  {
    if s == [] || Compare(k, s[0]) == Less then
      [k] + s
    else
      assert Compare(s[0], k) == Less by { assert Compare(s[0], k) != Equal; }
      assert !HasRank(s[1..], k) by {
        forall i | 0 <= i < |s[1..]| ensures Compare(s[1..][i], k) != Equal {
          assert s[1..][i] == s[i + 1];
        }
      }
      var rest := Insert(s[1..], k);
      assert forall x :: x in rest ==> Compare(s[0], x) == Less by {
        forall x | x in rest ensures Compare(s[0], x) == Less {
          if x != k {
            var i :| 0 <= i < |s[1..]| && s[1..][i] == x;
            assert x == s[i + 1];
          }
        }
      }
      assert forall i :: 0 < i < |[s[0]] + rest| ==> ([s[0]] + rest)[i] in rest by {
        forall i | 0 < i < |[s[0]] + rest| ensures ([s[0]] + rest)[i] in rest {
          assert ([s[0]] + rest)[i] == rest[i - 1];
        }
      }
      [s[0]] + rest
  }

  /** `BTreeMap::remove`: drops the entry Ord-equal to `k`, if any. */
  function Remove(s: seq<PriorityKey>, k: PriorityKey): (r: seq<PriorityKey>)
    requires Sorted(s)
    ensures Sorted(r)
    ensures forall x :: x in r <==> x in s && Compare(x, k) != Equal
    ensures |r| == if HasRank(s, k) then |s| - 1 else |s|
  {
    if s == [] then
      []
    else if Compare(s[0], k) == Equal then
      assert forall x :: x in s[1..] ==> Compare(x, k) != Equal by {
        forall x | x in s[1..] ensures Compare(x, k) != Equal {
          var i :| 0 <= i < |s[1..]| && s[1..][i] == x;
          assert Compare(s[0], s[i + 1]) == Less;
        }
      }
      assert !HasRank(s[1..], k) by {
        forall i | 0 <= i < |s[1..]| ensures Compare(s[1..][i], k) != Equal {
          assert s[1..][i] in s[1..];
        }
      }
      s[1..]
    else
      var r := [s[0]] + Remove(s[1..], k);
      assert HasRank(s, k) <==> HasRank(s[1..], k) by {
        if HasRank(s, k) {
          var i :| 0 <= i < |s| && Compare(s[i], k) == Equal;
          assert s[1..][i - 1] == s[i];
        }
        if HasRank(s[1..], k) {
          var i :| 0 <= i < |s[1..]| && Compare(s[1..][i], k) == Equal;
          assert s[i + 1] == s[1..][i];
        }
      }
      r
  }

  /** `BTreeMap::pop_first` yields the least key: every other key ranks strictly after it. */
  lemma FirstIsLeast(s: seq<PriorityKey>)
    requires Sorted(s) && |s| > 0
    ensures Sorted(s[1..])
    ensures forall x :: x in s[1..] ==> Compare(s[0], x) == Less
  {
  }

  /** Removing the least key is `pop_first`: the rest of the set, in order. */
  lemma RemoveFirst(s: seq<PriorityKey>)
    requires Sorted(s) && |s| > 0
    ensures Remove(s, s[0]) == s[1..]
  {
    assert Compare(s[0], s[0]) == Equal;
  }

  /** A key ranked before the first key of a sorted sequence extends it. */
  lemma SortedCons(s: seq<PriorityKey>)
    requires s != [] && Sorted(s[1..])
    requires |s| > 1 ==> Compare(s[0], s[1]) == Less
    ensures Sorted(s)
  {
    forall i, j | 0 <= i < j < |s| ensures Compare(s[i], s[j]) == Less {
      if i == 0 && j > 1 {
        assert Compare(s[1], s[j]) == Less by {
          assert s[1] == s[1..][0] && s[j] == s[1..][j - 1];
        }
      } else if i > 0 {
        assert s[i] == s[1..][i - 1] && s[j] == s[1..][j - 1];
      }
    }
  }

  /** A strictly sorted sequence is determined by its elements: the BTreeMap has one iteration order. */
  lemma {:induction false} SortedUnique(a: seq<PriorityKey>, b: seq<PriorityKey>)
    requires Sorted(a) && Sorted(b)
    requires forall x :: x in a <==> x in b
    ensures a == b
  {
    if a != [] || b != [] {
      assert a != [] ==> a[0] in b;
      assert b != [] ==> b[0] in a;
      assert a != [] && b != [];
      var i :| 0 <= i < |a| && a[i] == b[0];
      var j :| 0 <= j < |b| && b[j] == a[0];
      assert i == 0;
      assert j == 0;
      forall x ensures x in a[1..] <==> x in b[1..] {
        if x in a[1..] {
          var i :| 0 <= i < |a[1..]| && a[1..][i] == x;
          assert Compare(a[0], a[i + 1]) == Less;
          assert x in b;
          assert x != b[0];
          var j :| 0 <= j < |b| && b[j] == x;
          assert b[1..][j - 1] == x;
        }
        if x in b[1..] {
          var j :| 0 <= j < |b[1..]| && b[1..][j] == x;
          assert Compare(b[0], b[j + 1]) == Less;
          assert x in a;
          assert x != a[0];
          var i :| 0 <= i < |a| && a[i] == x;
          assert a[1..][i - 1] == x;
        }
      }
      SortedUnique(a[1..], b[1..]);
      assert a == [a[0]] + a[1..];
      assert b == [b[0]] + b[1..];
    }
  }

  /**
   * A key that ranks after the first `n` keys and before the rest lands at position `n`; nothing
   * else moves.
   */
  lemma {:induction false} InsertBetween(s: seq<PriorityKey>, n: nat, k: PriorityKey)
    requires Sorted(s) && n <= |s|
    requires forall i :: 0 <= i < n ==> Compare(s[i], k) == Less
    requires forall i :: n <= i < |s| ==> Compare(k, s[i]) == Less
    ensures !HasRank(s, k)
    ensures Insert(s, k) == s[..n] + [k] + s[n..]
    decreases n
  {
    if n > 0 {
      assert forall i :: 0 <= i < |s[1..]| ==> s[1..][i] == s[i + 1];
      InsertBetween(s[1..], n - 1, k);
      assert s[..n] == [s[0]] + s[1..][..n - 1];
      assert s[n..] == s[1..][n - 1..];
    }
  }

  /**
   * The ordering test: keys (0,1), (1,0), (0,2) inserted in that order come out as
   * (0,1), (0,2), (1,0), each with its own hash.
   */
  lemma KeyOrderExample(h1: SequenceHash, h2: SequenceHash, h3: SequenceHash)
    ensures var k1, k2, k3 := PriorityKey(0, 1, h1), PriorityKey(1, 0, h2), PriorityKey(0, 2, h3);
            Insert([], k1) == [k1]
            && Insert([k1], k2) == [k1, k2]
            && Insert([k1, k2], k3) == [k1, k3, k2]
  {
    var k1, k2, k3 := PriorityKey(0, 1, h1), PriorityKey(1, 0, h2), PriorityKey(0, 2, h3);
    assert Insert([k1], k2) == [k1] + Insert([], k2);
    assert [k1, k2][1..] == [k2];
    assert Insert([k2], k3) == [k3, k2];
    assert Insert([k1, k2], k3) == [k1] + Insert([k2], k3);
  }
}
