/** Sequences in order, and sequences without duplicates. */
module Sorted {
  predicate DuplicateFree<T(==)>(s: seq<T>) { forall i, j | 0 <= i < j < |s| :: s[i] != s[j] }

  predicate InOrder<T>(s: seq<T>, less: (T, T) -> bool) { forall i, j | 0 <= i < j < |s| :: less(s[i], s[j]) }

  ghost predicate Transitive<T(!new)>(less: (T, T) -> bool) { forall x, y, z :: less(x, y) && less(y, z) ==> less(x, z) }

  /** Puts an element in its place. */
  function Insert<T>(s: seq<T>, x: T, less: (T, T) -> bool): (r: seq<T>)
    ensures |r| == |s| + 1
  {
    if s == [] || !less(x, s[|s| - 1]) then s + [x]
    else Insert(s[..|s| - 1], x, less) + [s[|s| - 1]]
  }

  /** Whether `y` is the new element or one of the old ones. */
  ghost predicate OldOrNew<T>(s: seq<T>, x: T, y: T) { y == x || exists j :: 0 <= j < |s| && s[j] == y }

  lemma {:induction false} InsertMembers<T>(s: seq<T>, x: T, less: (T, T) -> bool)
    ensures forall i | 0 <= i < |s| + 1 :: OldOrNew(s, x, Insert(s, x, less)[i])
    ensures x in Insert(s, x, less) && forall i | 0 <= i < |s| :: s[i] in Insert(s, x, less)
  {
    if s != [] && less(x, s[|s| - 1]) {
      var n := |s| - 1;
      var front := s[..n];
      InsertMembers(front, x, less);
      var r := Insert(front, x, less);
      forall i | 0 <= i < |r| ensures OldOrNew(s, x, r[i]) {
        assert OldOrNew(front, x, r[i]);
      }
      assert forall i | 0 <= i < n :: front[i] == s[i] && front[i] in r;
    }
  }

  lemma AppendKeepsOrder<T(!new)>(s: seq<T>, x: T, less: (T, T) -> bool)
    requires InOrder(s, less) && Transitive(less) && (s != [] ==> less(s[|s| - 1], x))
    ensures InOrder(s + [x], less)
  {
    forall i | 0 <= i < |s| ensures less(s[i], x) {
      assert i < |s| - 1 ==> less(s[i], s[|s| - 1]);
    }
  }

  lemma {:induction false} InsertKeepsOrder<T(!new)>(s: seq<T>, x: T, less: (T, T) -> bool)
    requires InOrder(s, less) && Transitive(less)
    requires forall i | 0 <= i < |s| :: less(s[i], x) || less(x, s[i])
    ensures InOrder(Insert(s, x, less), less)
  {
    if s == [] || !less(x, s[|s| - 1]) {
      AppendKeepsOrder(s, x, less);
    } else {
      var front, last := s[..|s| - 1], s[|s| - 1];
      InsertMembers(front, x, less);
      InsertKeepsOrder(front, x, less);
      var r := Insert(front, x, less);
      assert OldOrNew(front, x, r[|r| - 1]);
      AppendKeepsOrder(r, last, less);
    }
  }
}
