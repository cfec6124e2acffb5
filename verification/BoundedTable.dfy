/** Tables that make room by dropping the entries whose time is up first. */
module BoundedTable {

  /** Only as many entries as needed went, and each of them was due no later than any that stayed. */
  ghost predicate Trimmed<V>(before: map<string, V>, after: map<string, V>, target: int, due: V -> int) {
    && after.Keys <= before.Keys
    && (forall k :: k in after ==> after[k] == before[k])
    && |after| == (if |before| <= target then |before| else target)
    && (forall g, k :: g in before && g !in after && k in after ==> due(before[g]) <= due(before[k]))
  }

  lemma {:induction false} SubsetSize<T>(small: set<T>, big: set<T>)
    requires small <= big
    ensures |small| <= |big| && (|small| == |big| ==> small == big)
  {
    if small != {} {
      var x :| x in small;
      SubsetSize(small - {x}, big - {x});
    }
  }

  lemma NothingEvicted<V>(before: map<string, V>, after: map<string, V>, target: int, due: V -> int)
    requires Trimmed(before, after, target, due) && |before| <= target
    ensures after == before
  {
    SubsetSize(after.Keys, before.Keys);
  }
}
