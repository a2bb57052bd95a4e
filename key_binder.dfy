/** The key binder handed to the virtualizer as `getItemKey`: it maps a
    position in the current (possibly sorted) row order to the id of the
    record at that position, so that a rendered row is identified by its
    record and not by its slot. Rows are modelled by their ids. */
module KeyBinder {

  /** What a template literal makes of a missing row (`${undefined}`). */
  const UndefinedKey: string := "undefined"

  /** `getItemKey(index)`: the string form of `rows[index]?.id`. */
  function KeyFor(ids: seq<string>, index: int): (key: string)
    ensures 0 <= index < |ids| ==> key == ids[index]
    ensures !(0 <= index < |ids|) ==> key == UndefinedKey
  {
    if 0 <= index < |ids| then ids[index] else UndefinedKey
  }

  /** `perm` is a reordering of n positions: position k of the new order holds
      the record that was at position perm[k]; no old position is used twice. */
  predicate IsPermutation(perm: seq<nat>, n: nat)
  {
    && |perm| == n
    && (forall k :: 0 <= k < n ==> perm[k] < n)
    && (forall k, l :: 0 <= k < l < n ==> perm[k] != perm[l])
  }

  /** The row order after a reordering such as a sort. */
  function Reordered(ids: seq<string>, perm: seq<nat>): seq<string>
    requires forall k :: 0 <= k < |perm| ==> perm[k] < |ids|
  {
    seq(|perm|, k requires 0 <= k < |perm| => ids[perm[k]])
  }

  /** The old positions used by the first m entries of an injective `perm`. */
  lemma {:induction false} ImageSize(perm: seq<nat>, m: nat)
    requires m <= |perm|
    requires forall k, l :: 0 <= k < l < |perm| ==> perm[k] != perm[l]
    ensures |set k | 0 <= k < m :: perm[k]| == m
  {
    if m > 0 {
      ImageSize(perm, m - 1);
      var prev := set k | 0 <= k < m - 1 :: perm[k];
      assert (set k | 0 <= k < m :: perm[k]) == prev + {perm[m - 1]};
      assert perm[m - 1] !in prev;
    }
  }

  /** A set of positions below n, one of which is missing, has fewer than n members. */
  lemma {:induction false} BoundedSetSize(s: set<nat>, n: nat, missing: nat)
    requires forall x :: x in s ==> x < n
    requires missing < n && missing !in s
    ensures |s| < n
  {
    var top := n - 1;
    var below := s - {top};
    if top == missing {
      assert below == s;
      if below != {} {
        var x :| x in below;
        BoundedSetSize(below - {x}, n - 1, x);
      }
    } else {
      BoundedSetSize(below, n - 1, missing);
    }
  }

  /** A reordering loses no record: every old position is moved to a new one. */
  lemma PermutationIsOnto(perm: seq<nat>, n: nat, j: nat)
    requires IsPermutation(perm, n)
    requires j < n
    ensures exists k :: 0 <= k < n && perm[k] == j
  {
    var image := set k | 0 <= k < n :: perm[k];
    ImageSize(perm, n);
    if j !in image {
      BoundedSetSize(image, n, j);
      assert false;
    }
  }

  /** Where a reordering moves the record that was at position j. */
  ghost function NewPosition(perm: seq<nat>, n: nat, j: nat): (k: nat)
    requires IsPermutation(perm, n)
    requires j < n
    ensures k < n && perm[k] == j
  {
    PermutationIsOnto(perm, n, j);
    var k: nat :| k < n && perm[k] == j; k
  }

  /** After a reordering the binder is handed the same number of rows, the key
      at each position is the id of the record now at that position, and the
      record that was at position j is keyed by its id at its new position
      (and there only, since `perm` is injective). */
  lemma KeysFollowRecords(ids: seq<string>, perm: seq<nat>)
    requires IsPermutation(perm, |ids|)
    ensures |Reordered(ids, perm)| == |ids|
    ensures forall k :: 0 <= k < |ids| ==> KeyFor(Reordered(ids, perm), k) == ids[perm[k]]
    ensures forall j: nat :: j < |ids| ==> KeyFor(Reordered(ids, perm), NewPosition(perm, |ids|, j)) == ids[j]
  {
  }

  /** Distinct record ids give distinct keys to the rows of the table. */
  lemma DistinctIdsGiveDistinctKeys(ids: seq<string>, i: int, j: int)
    requires forall a, b :: 0 <= a < b < |ids| ==> ids[a] != ids[b]
    requires 0 <= i < |ids| && 0 <= j < |ids| && i != j
    ensures KeyFor(ids, i) != KeyFor(ids, j)
  {
  }
}
