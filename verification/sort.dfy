/** `Array.prototype.sort` with a numeric comparator `(a, b) => key(a) - key(b)`,
    as the tileset uses it on tiles (by distance to the camera) and on
    expired tiles (by last visit time). The ECMAScript specification has
    required the sort to be stable since 2019; it is written here as an
    insertion sort that places each element after those with equal keys. */
module Sorting {
  /** Ascending by `key`. */
  predicate SortedBy(s: seq<nat>, key: nat -> real) {
    forall i, j | 0 <= i < j < |s| :: key(s[i]) <= key(s[j])
  }

  /** `x` placed after the last element of `s` whose key is not greater. */
  function Insert(s: seq<nat>, x: nat, key: nat -> real): (r: seq<nat>)
    ensures |r| == |s| + 1
    ensures multiset(r) == multiset(s) + multiset{x}
    decreases |s|
  {
    if |s| == 0 || key(s[|s| - 1]) <= key(x) then s + [x]
    else
      assert s == s[..|s| - 1] + [s[|s| - 1]];
      Insert(s[..|s| - 1], x, key) + [s[|s| - 1]]
  }

  /** The sorted permutation, each element inserted in its original order. */
  function SortBy(s: seq<nat>, key: nat -> real): (r: seq<nat>)
    ensures |r| == |s|
    ensures multiset(r) == multiset(s)
    decreases |s|
  {
    if |s| == 0 then []
    else
      assert s == s[..|s| - 1] + [s[|s| - 1]];
      Insert(SortBy(s[..|s| - 1], key), s[|s| - 1], key)
  }

  lemma InMultiset(s: seq<nat>, x: nat, y: nat, key: nat -> real)
    requires y in Insert(s, x, key)
    ensures y == x || y in s
  {
    assert y in multiset(Insert(s, x, key));
  }

  /** Inserting into a sorted sequence keeps it sorted. */
  lemma {:induction false} InsertSorted(s: seq<nat>, x: nat, key: nat -> real)
    requires SortedBy(s, key)
    ensures SortedBy(Insert(s, x, key), key)
    decreases |s|
  {
    if |s| > 0 && key(s[|s| - 1]) > key(x) {
      var init := s[..|s| - 1];
      var last := s[|s| - 1];
      assert SortedBy(init, key);
      InsertSorted(init, x, key);
      var r' := Insert(init, x, key);
      forall i | 0 <= i < |r'| ensures key(r'[i]) <= key(last) {
        InMultiset(init, x, r'[i], key);
        if r'[i] != x {
          var j :| 0 <= j < |init| && init[j] == r'[i];
          assert s[j] == init[j];
        }
      }
    }
  }

  /** The result is sorted. */
  lemma {:induction false} SortBySorted(s: seq<nat>, key: nat -> real)
    ensures SortedBy(SortBy(s, key), key)
    decreases |s|
  {
    if |s| > 0 {
      SortBySorted(s[..|s| - 1], key);
      InsertSorted(SortBy(s[..|s| - 1], key), s[|s| - 1], key);
    }
  }

  /** Sorting a sequence that is already in order changes nothing. */
  lemma {:induction false} SortBySortedInput(s: seq<nat>, key: nat -> real)
    requires SortedBy(s, key)
    ensures SortBy(s, key) == s
    decreases |s|
  {
    if |s| > 0 {
      var init := s[..|s| - 1];
      assert SortedBy(init, key);
      SortBySortedInput(init, key);
      assert s == init + [s[|s| - 1]];
    }
  }
}
