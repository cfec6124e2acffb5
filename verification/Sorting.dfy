/** Stable sorting as the standard library promises it, and when its result is determined by the elements alone. */
module Sorting {

  ghost predicate TotalOrder<T(!new)>(le: (T, T) -> bool) {
    && (forall x, y :: le(x, y) || le(y, x))
    && (forall x, y, z :: le(x, y) && le(y, z) ==> le(x, z))
  }

  function Map<A, B>(f: A -> B, xs: seq<A>): seq<B> {
    seq(|xs|, i requires 0 <= i < |xs| => f(xs[i]))
  }

  lemma RemoveAt<T>(xs: seq<T>, k: nat)
    requires k < |xs|
    ensures multiset(xs) == multiset(xs[..k] + xs[k + 1..]) + multiset{xs[k]}
    ensures multiset(xs[..k] + xs[k + 1..]) == multiset(xs) - multiset{xs[k]}
  {
    assert xs == xs[..k] + [xs[k]] + xs[k + 1..];
  }

  lemma MapWithout<A, B>(f: A -> B, xs: seq<A>, k: nat)
    requires k < |xs|
    ensures multiset(Map(f, xs)) == multiset(Map(f, xs[..k] + xs[k + 1..])) + multiset{f(xs[k])}
  {
    RemoveAt(Map(f, xs), k);
    assert Map(f, xs)[..k] + Map(f, xs)[k + 1..] == Map(f, xs[..k] + xs[k + 1..]);
  }

  lemma {:induction false} MapPermutes<A, B>(f: A -> B, xs: seq<A>, ys: seq<A>)
    requires multiset(xs) == multiset(ys)
    ensures multiset(Map(f, xs)) == multiset(Map(f, ys))
  {
    hide Map;
    assert |xs| == |multiset(xs)| == |multiset(ys)| == |ys|;
    if xs == [] {
      assert ys == xs;
    } else {
      assert xs[0] in multiset(ys);
      var k :| 0 <= k < |ys| && ys[k] == xs[0];
      var rest := ys[..k] + ys[k + 1..];
      assert multiset(xs[1..]) == multiset(rest) by {
        RemoveAt(ys, k);
        TailMultiset(xs);
      }
      MapPermutes(f, xs[1..], rest);
      assert xs[..0] + xs[1..] == xs[1..];
      MapWithout(f, xs, 0);
      MapWithout(f, ys, k);
    }
  }

  lemma PermutationKeepsElements<T>(xs: seq<T>, ys: seq<T>)
    requires multiset(xs) == multiset(ys)
    ensures |xs| == |ys| && forall x :: x in xs <==> x in ys
  {
    assert |xs| == |multiset(xs)| == |multiset(ys)| == |ys|;
    forall x ensures x in xs <==> x in ys {
      assert (x in xs <==> x in multiset(xs)) && (x in ys <==> x in multiset(ys));
    }
  }

  predicate Distinct<T(==)>(xs: seq<T>) { forall i, j :: 0 <= i < j < |xs| ==> xs[i] != xs[j] }

  /** Distinctness by counting, which a permutation cannot disturb. */
  lemma {:induction false} DistinctByCount<T>(xs: seq<T>)
    ensures |set x | x in xs| <= |xs| && (Distinct(xs) <==> |set x | x in xs| == |xs|)
  {
    if xs != [] {
      var front, last := xs[..|xs| - 1], xs[|xs| - 1];
      DistinctByCount(front);
      assert xs == front + [last];
      assert (set x | x in xs) == (set x | x in front) + {last};
      assert Distinct(xs) <==> Distinct(front) && last !in front;
    }
  }

  lemma PermutationKeepsDistinct<T>(xs: seq<T>, ys: seq<T>)
    requires multiset(xs) == multiset(ys)
    ensures Distinct(xs) <==> Distinct(ys)
  {
    DistinctByCount(xs);
    DistinctByCount(ys);
    PermutationKeepsElements(xs, ys);
    assert (set x | x in xs) == (set y | y in ys);
  }

  predicate Sorted<T>(xs: seq<T>, le: (T, T) -> bool) {
    forall i, j :: 0 <= i < j < |xs| ==> le(xs[i], xs[j])
  }

  function Insert<T>(x: T, xs: seq<T>, le: (T, T) -> bool): seq<T> {
    if xs == [] || le(x, xs[0]) then [x] + xs else [xs[0]] + Insert(x, xs[1..], le)
  }

  /** Insertion from the right keeps equals in their order. */
  function Sort<T>(xs: seq<T>, le: (T, T) -> bool): seq<T> {
    if xs == [] then [] else Insert(xs[0], Sort(xs[1..], le), le)
  }

  lemma {:induction false} InsertPermutes<T>(x: T, xs: seq<T>, le: (T, T) -> bool)
    ensures multiset(Insert(x, xs, le)) == multiset(xs) + multiset{x}
  {
    if xs != [] {
      assert xs == [xs[0]] + xs[1..];
      if !le(x, xs[0]) { InsertPermutes(x, xs[1..], le); }
    }
  }

  lemma {:induction false} SortPermutes<T>(xs: seq<T>, le: (T, T) -> bool)
    ensures multiset(Sort(xs, le)) == multiset(xs)
  {
    if xs != [] {
      assert xs == [xs[0]] + xs[1..];
      SortPermutes(xs[1..], le);
      InsertPermutes(xs[0], Sort(xs[1..], le), le);
    }
  }

  lemma {:induction false} InsertSorted<T(!new)>(x: T, xs: seq<T>, le: (T, T) -> bool)
    requires TotalOrder(le) && Sorted(xs, le)
    ensures Sorted(Insert(x, xs, le), le)
  {
    if xs != [] && !le(x, xs[0]) {
      var rest := Insert(x, xs[1..], le);
      InsertSorted(x, xs[1..], le);
      InsertPermutes(x, xs[1..], le);
      forall i | 0 <= i < |rest| ensures le(xs[0], rest[i]) {
        assert rest[i] in multiset(rest);
        if rest[i] != x { assert rest[i] in xs[1..]; }
      }
    }
  }

  lemma {:induction false} SortSorts<T(!new)>(xs: seq<T>, le: (T, T) -> bool)
    requires TotalOrder(le)
    ensures Sorted(Sort(xs, le), le)
  {
    if xs != [] {
      SortSorts(xs[1..], le);
      InsertSorted(xs[0], Sort(xs[1..], le), le);
    }
  }

  ghost predicate NoTies<T(!new)>(xs: seq<T>, le: (T, T) -> bool) {
    forall x, y :: x in xs && y in xs && le(x, y) && le(y, x) ==> x == y
  }

  /** Elements whose keys are distinct are never tied, if ties need equal keys. */
  lemma DistinctKeysNoTies<T(!new), K>(xs: seq<T>, keys: seq<K>, le: (T, T) -> bool)
    requires |keys| == |xs| && Distinct(keys)
    requires forall i, j :: 0 <= i < |xs| && 0 <= j < |xs| && le(xs[i], xs[j]) && le(xs[j], xs[i]) ==>
      keys[i] == keys[j]
    ensures NoTies(xs, le)
  {
    forall x, y | x in xs && y in xs && le(x, y) && le(y, x) ensures x == y {
      var i :| 0 <= i < |xs| && xs[i] == x;
      var j :| 0 <= j < |xs| && xs[j] == y;
      assert keys[i] == keys[j];
    }
  }

  lemma SameHead<T(!new)>(xs: seq<T>, ys: seq<T>, le: (T, T) -> bool)
    requires xs != [] && ys != [] && multiset(xs) == multiset(ys)
    requires Sorted(xs, le) && Sorted(ys, le) && NoTies(xs, le)
    ensures xs[0] == ys[0]
  {
    assert ys[0] in multiset(xs) && xs[0] in multiset(ys);
    var i :| 0 <= i < |xs| && xs[i] == ys[0];
    var j :| 0 <= j < |ys| && ys[j] == xs[0];
    assert (i > 0 ==> le(xs[0], xs[i])) && (j > 0 ==> le(ys[0], ys[j]));
  }

  lemma TailSorted<T(!new)>(xs: seq<T>, le: (T, T) -> bool)
    requires xs != [] && Sorted(xs, le)
    ensures Sorted(xs[1..], le) && (NoTies(xs, le) ==> NoTies(xs[1..], le))
  {
  }

  lemma TailMultiset<T>(xs: seq<T>)
    requires xs != []
    ensures multiset(xs[1..]) == multiset(xs) - multiset{xs[0]}
  {
    assert xs == [xs[0]] + xs[1..];
  }

  lemma SameTail<T>(xs: seq<T>, ys: seq<T>)
    requires xs != [] && ys != [] && multiset(xs) == multiset(ys) && xs[0] == ys[0]
    ensures multiset(xs[1..]) == multiset(ys[1..])
  {
    TailMultiset(xs);
    TailMultiset(ys);
  }

  lemma SameSize<T>(xs: seq<T>, ys: seq<T>)
    requires multiset(xs) == multiset(ys)
    ensures |xs| == |ys|
  {
    assert |xs| == |multiset(xs)| == |multiset(ys)| == |ys|;
  }

  /** With no two different elements tied, there is only one sorted arrangement. */
  lemma {:induction false} SortedUnique<T(!new)>(xs: seq<T>, ys: seq<T>, le: (T, T) -> bool)
    requires multiset(xs) == multiset(ys) && Sorted(xs, le) && Sorted(ys, le) && NoTies(xs, le)
    ensures xs == ys
  {
    SameSize(xs, ys);
    if xs != [] {
      hide Sorted, NoTies;
      SameHead(xs, ys, le);
      SameTail(xs, ys);
      TailSorted(xs, le);
      TailSorted(ys, le);
      SortedUnique(xs[1..], ys[1..], le);
      assert xs == [xs[0]] + xs[1..] && ys == [ys[0]] + ys[1..];
    }
  }

  /** Sorting a permutation gives the same sequence when ties are only between equals. */
  lemma SortCanonical<T(!new)>(xs: seq<T>, ys: seq<T>, le: (T, T) -> bool)
    requires TotalOrder(le) && multiset(xs) == multiset(ys) && NoTies(xs, le)
    ensures Sort(xs, le) == Sort(ys, le)
  {
    SortPermutes(xs, le);
    SortPermutes(ys, le);
    SortSorts(xs, le);
    SortSorts(ys, le);
    forall x | x in Sort(xs, le) ensures x in xs {
      assert x in multiset(Sort(xs, le));
    }
    SortedUnique(Sort(xs, le), Sort(ys, le), le);
  }

  // ---------------------------------------------------------------- stability

  predicate Tied<T>(x: T, y: T, le: (T, T) -> bool) { le(x, y) && le(y, x) }

  /** The elements tied with x, in their order. */
  function TiedWith<T>(x: T, xs: seq<T>, le: (T, T) -> bool): seq<T> {
    if xs == [] then []
    else (if Tied(x, xs[0], le) then [xs[0]] else []) + TiedWith(x, xs[1..], le)
  }

  lemma {:induction false} InsertStable<T(!new)>(x: T, y: T, xs: seq<T>, le: (T, T) -> bool)
    requires TotalOrder(le)
    ensures TiedWith(x, Insert(y, xs, le), le) == TiedWith(x, [y] + xs, le)
  {
    assert ([y] + xs)[1..] == xs;
    if xs != [] && !le(y, xs[0]) {
      var rest := Insert(y, xs[1..], le);
      assert ([xs[0]] + rest)[1..] == rest;
      assert ([y] + xs[1..])[1..] == xs[1..];
      InsertStable(x, y, xs[1..], le);
      assert !(Tied(x, y, le) && Tied(x, xs[0], le));
    }
  }

  /** Sorting keeps tied elements in their order. */
  lemma {:induction false} SortStable<T(!new)>(x: T, xs: seq<T>, le: (T, T) -> bool)
    requires TotalOrder(le)
    ensures TiedWith(x, Sort(xs, le), le) == TiedWith(x, xs, le)
  {
    if xs != [] {
      SortStable(x, xs[1..], le);
      InsertStable(x, xs[0], Sort(xs[1..], le), le);
      assert ([xs[0]] + Sort(xs[1..], le))[1..] == Sort(xs[1..], le);
    }
  }

  function Without<T>(xs: seq<T>, k: nat): (rest: seq<T>)
    requires k < |xs|
    ensures |rest| == |xs| - 1
  {
    xs[..k] + xs[k + 1..]
  }

  lemma WithoutPermutes<T>(xs: seq<T>, k: nat)
    requires k < |xs|
    ensures multiset([xs[k]] + Without(xs, k)) == multiset(xs)
  {
    RemoveAt(xs, k);
    hide Without;
  }

  lemma ConsPermutes<T>(x: T, xs: seq<T>, ys: seq<T>)
    requires multiset(xs) == multiset(ys)
    ensures multiset([x] + xs) == multiset([x] + ys)
  {
    assert multiset([x] + xs) == multiset{x} + multiset(xs);
    assert multiset([x] + ys) == multiset{x} + multiset(ys);
  }

  /** Two elements brought to the front, in this order. */
  function InFront<T>(xs: seq<T>, i: nat, j: nat): (r: seq<T>)
    requires i < |xs| && j < |xs| && i != j
    ensures |r| >= 2 && r[0] == xs[i] && r[1] == xs[j]
  {
    [xs[i]] + ([xs[j]] + Without(Without(xs, i), if j < i then j else j - 1))
  }

  lemma InFrontPermutes<T>(xs: seq<T>, i: nat, j: nat)
    requires i < |xs| && j < |xs| && i != j
    ensures multiset(InFront(xs, i, j)) == multiset(xs)
  {
    var one := Without(xs, i);
    var k := if j < i then j else j - 1;
    assert one[k] == xs[j];
    WithoutPermutes(xs, i);
    WithoutPermutes(one, k);
    hide Without;
    ConsPermutes(xs[i], [one[k]] + Without(one, k), one);
  }

  /** What a sort makes of tied elements in front shows which of them came first. */
  lemma TieShows<A, T(!new)>(f: A -> T, xs: seq<A>, i: nat, j: nat, le: (T, T) -> bool)
    requires TotalOrder(le) && i < |xs| && j < |xs| && i != j
    requires f(xs[i]) != f(xs[j]) && Tied(f(xs[i]), f(xs[j]), le)
    ensures Sort(Map(f, InFront(xs, i, j)), le) != Sort(Map(f, InFront(xs, j, i)), le)
  {
    var x := f(xs[i]);
    var one, two := Map(f, InFront(xs, i, j)), Map(f, InFront(xs, j, i));
    assert one[0] == x && two[0] == f(xs[j]);
    hide Sort;
    SortStable(x, one, le);
    SortStable(x, two, le);
    assert le(x, x);
    assert TiedWith(x, one, le)[0] == x && TiedWith(x, two, le)[0] == f(xs[j]);
  }

  ghost predicate SortsAlike<A(!new), T>(f: A -> T, xs: seq<A>, le: (T, T) -> bool) {
    forall ys: seq<A> :: multiset(ys) == multiset(xs) ==> Sort(Map(f, ys), le) == Sort(Map(f, xs), le)
  }

  /** Every arrangement sorts to the same sequence if and only if no two different images are tied. */
  lemma SortsAlikeExactly<A(!new), T(!new)>(f: A -> T, xs: seq<A>, le: (T, T) -> bool)
    requires TotalOrder(le)
    ensures SortsAlike(f, xs, le) <==> NoTies(Map(f, xs), le)
  {
    var images := Map(f, xs);
    if NoTies(images, le) {
      forall ys: seq<A> | multiset(ys) == multiset(xs) ensures Sort(Map(f, ys), le) == Sort(images, le) {
        MapPermutes(f, xs, ys);
        SortCanonical(images, Map(f, ys), le);
      }
    } else {
      var x, y :| x in images && y in images && le(x, y) && le(y, x) && x != y;
      var i :| 0 <= i < |images| && images[i] == x;
      var j :| 0 <= j < |images| && images[j] == y;
      InFrontPermutes(xs, i, j);
      InFrontPermutes(xs, j, i);
      TieShows(f, xs, i, j, le);
    }
  }
}
