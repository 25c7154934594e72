/**
 * `pair_sum_unsorted` and `pair_sum_unsorted_two_pass` from
 * coding-interview-patterns: find two indices whose values add up to the
 * target with a hash map from value to index. The map is a Dafny `map`
 * variable that the loops update; `insert` overwrites, so an entry always
 * holds the latest index seen for its value.
 */
module PairSum {

  /** A value of Rust's `i32`. */
  predicate I32(x: int) {
    -0x8000_0000 <= x < 0x8000_0000
  }

  /** `target - num` does not overflow `i32` for any element. */
  predicate NoOverflow(nums: seq<int>, target: int) {
    forall k :: 0 <= k < |nums| ==> I32(target - nums[k])
  }

  /** Two different indices whose values add up to the target. */
  predicate IsPair(nums: seq<int>, target: int, i: int, j: int) {
    0 <= i < |nums| && 0 <= j < |nums| && i != j && nums[i] + nums[j] == target
  }

  /** Some two different indices add up to the target. */
  ghost predicate HasPair(nums: seq<int>, target: int) {
    exists i, j :: IsPair(nums, target, i, j)
  }

  /** No index below n has a partner among the indices below n. */
  predicate NoPairBelow(nums: seq<int>, target: int, n: int)
    requires n <= |nums|
  {
    forall a, b :: 0 <= b < a < n ==> nums[a] + nums[b] != target
  }

  /** The map holds, for every value among the first n elements, the last index below n holding it, and nothing else. */
  predicate LastIndices(nums: seq<int>, n: int, m: map<int, nat>)
    requires 0 <= n <= |nums|
  {
    (forall k :: 0 <= k < n ==> nums[k] in m) &&
    (forall v :: v in m ==> m[v] < n && nums[m[v]] == v && forall k :: m[v] < k < n ==> nums[k] != v)
  }

  /** `pair_sum_unsorted`: one pass, looking each complement up among the earlier elements before inserting. */
  method PairSumUnsorted(nums: seq<int>, target: int) returns (r: seq<nat>)
    requires NoOverflow(nums, target)
    ensures r == [] <==> !HasPair(nums, target)
    ensures r != [] ==> |r| == 2 && r[1] < r[0] < |nums| && nums[r[0]] + nums[r[1]] == target
    ensures r != [] ==> forall k :: r[1] < k < r[0] ==> nums[k] != nums[r[1]]
    ensures r != [] ==> NoPairBelow(nums, target, r[0])
  {
    var hashmap: map<int, nat> := map[];
    for i := 0 to |nums|
      invariant LastIndices(nums, i, hashmap)
      invariant NoPairBelow(nums, target, i)
    {
      var complement := target - nums[i];
      if complement in hashmap {
        var j := hashmap[complement];
        if i != j {
          Found(nums, target, i, hashmap);
          return [i, j];
        }
      }
      Extend(nums, target, i, hashmap);
      hashmap := hashmap[nums[i] := i];
    }
    NoPairAtAll(nums, target);
    return [];
  }

  /** A complement found among the first i elements completes a pair with the last index holding it. */
  lemma Found(nums: seq<int>, target: int, i: int, m: map<int, nat>)
    requires 0 <= i < |nums| && LastIndices(nums, i, m)
    requires target - nums[i] in m
    ensures var j := m[target - nums[i]];
      j < i && IsPair(nums, target, i, j) && forall k :: j < k < i ==> nums[k] != nums[j]
  {
  }

  /**
   * Inserting element i keeps the map's meaning, and when its complement is
   * not among the earlier elements, i has no partner before it.
   */
  lemma Extend(nums: seq<int>, target: int, i: int, m: map<int, nat>)
    requires 0 <= i < |nums| && LastIndices(nums, i, m) && NoPairBelow(nums, target, i)
    requires target - nums[i] in m ==> m[target - nums[i]] == i
    ensures LastIndices(nums, i + 1, m[nums[i] := i]) && NoPairBelow(nums, target, i + 1)
  {
    forall b | 0 <= b < i
      ensures nums[i] + nums[b] != target
    {
      assert nums[b] in m;
    }
  }

  /** Without a pair among all the indices there is no pair at all. */
  lemma NoPairAtAll(nums: seq<int>, target: int)
    requires NoPairBelow(nums, target, |nums|)
    ensures !HasPair(nums, target)
  {
    forall i, j | 0 <= i < |nums| && 0 <= j < |nums| && i != j
      ensures nums[i] + nums[j] != target
    {
      if i < j {
        assert nums[j] + nums[i] != target;
      }
    }
  }

  /** The first loop of `pair_sum_unsorted_two_pass`: every value mapped to the last index holding it. */
  method IndexMap(nums: seq<int>) returns (numMap: map<int, nat>)
    ensures LastIndices(nums, |nums|, numMap)
    ensures forall v :: v in numMap <==> v in nums
  {
    numMap := map[];
    for i := 0 to |nums|
      invariant LastIndices(nums, i, numMap)
    {
      numMap := numMap[nums[i] := i];
    }
  }

  /** No index below n has a partner at another index anywhere. */
  predicate NoPartnerBelow(nums: seq<int>, target: int, n: int)
    requires n <= |nums|
  {
    forall a, b :: 0 <= a < n && 0 <= b < |nums| && a != b ==> nums[a] + nums[b] != target
  }

  /** `pair_sum_unsorted_two_pass`: build the map, then look each complement up among all the elements. */
  method PairSumUnsortedTwoPass(nums: seq<int>, target: int) returns (r: seq<nat>)
    requires NoOverflow(nums, target)
    ensures r == [] <==> !HasPair(nums, target)
    ensures r != [] ==> |r| == 2 && IsPair(nums, target, r[0], r[1])
    ensures r != [] ==> forall k :: r[1] < k < |nums| ==> nums[k] != nums[r[1]]
    ensures r != [] ==> NoPartnerBelow(nums, target, r[0])
  {
    var numMap := IndexMap(nums);
    for i := 0 to |nums|
      invariant NoPartnerBelow(nums, target, i)
    {
      var complement := target - nums[i];
      if complement in numMap {
        var j := numMap[complement];
        if i != j {
          assert IsPair(nums, target, i, j);
          return [i, j];
        }
        SelfComplement(nums, target, i, numMap);
      } else {
        assert forall b :: 0 <= b < |nums| ==> nums[b] != complement;
      }
    }
    return [];
  }

  /**
   * When the last index of the complement is i itself, no other index is a
   * partner of i: a later one would be in the map instead, an earlier one
   * would have found i.
   */
  lemma SelfComplement(nums: seq<int>, target: int, i: int, m: map<int, nat>)
    requires 0 <= i < |nums| && LastIndices(nums, |nums|, m)
    requires NoPartnerBelow(nums, target, i)
    requires target - nums[i] in m && m[target - nums[i]] == i
    ensures forall b :: 0 <= b < |nums| && b != i ==> nums[i] + nums[b] != target
  {
    forall b | 0 <= b < |nums| && b != i
      ensures nums[i] + nums[b] != target
    {
      if b < i {
        assert nums[b] + nums[i] != target;
      }
    }
  }
}
