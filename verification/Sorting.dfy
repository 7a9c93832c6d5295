/**
 The stable sort of JavaScript arrays under a comparator, and the set idiom built on it
 ([...new Set(values)].sort(comparator)). A comparator is given as a relation: below(x, y) when
 it returns zero or less. Text collation is such a total preorder and may tie distinct strings.
 */
module Sorting {
  import opened Text

  type Relation<!T> = (T, T) -> bool

  ghost predicate TotalPreorder<T(!new)>(below: Relation<T>) {
    (forall x, y :: below(x, y) || below(y, x)) &&
    (forall x, y, z :: below(x, y) && below(y, z) ==> below(x, z))
  }

  ghost predicate Tied<T>(below: Relation<T>, x: T, y: T) {
    x != y && below(x, y) && below(y, x)
  }

  /** No two different elements of a list tie. */
  ghost predicate Untied<T>(xs: seq<T>, below: Relation<T>) {
    forall i, j :: 0 <= i < |xs| && 0 <= j < |xs| ==> !Tied(below, xs[i], xs[j])
  }

  function Insert<T>(x: T, xs: seq<T>, below: Relation<T>): seq<T>
    decreases |xs|
  {
    if xs == [] then [x]
    else if below(x, xs[0]) then [x] + xs
    else [xs[0]] + Insert(x, xs[1..], below)
  }

  /** Stable: of two tied elements the one that came first stays first. */
  function Sort<T>(xs: seq<T>, below: Relation<T>): seq<T>
    decreases |xs|
  {
    if xs == [] then [] else Insert(xs[0], Sort(xs[1..], below), below)
  }

  ghost predicate Ordered<T>(xs: seq<T>, below: Relation<T>) {
    forall i, j :: 0 <= i < j < |xs| ==> below(xs[i], xs[j])
  }

  ghost predicate Unique<T>(xs: seq<T>) {
    forall i, j :: 0 <= i < j < |xs| ==> xs[i] != xs[j]
  }

  ghost predicate SameElements<T(!new)>(xs: seq<T>, ys: seq<T>) {
    forall x :: x in xs <==> x in ys
  }

  lemma {:induction false} InsertKeeps<T>(x: T, xs: seq<T>, below: Relation<T>)
    ensures multiset(Insert(x, xs, below)) == multiset(xs) + multiset{x}
    decreases |xs|
  {
    if xs != [] && !below(x, xs[0]) {
      InsertKeeps(x, xs[1..], below);
    }
    assert xs == [] || xs == [xs[0]] + xs[1..];
  }

  lemma {:induction false} SortPermutes<T>(xs: seq<T>, below: Relation<T>)
    ensures multiset(Sort(xs, below)) == multiset(xs)
    decreases |xs|
  {
    if xs != [] {
      SortPermutes(xs[1..], below);
      InsertKeeps(xs[0], Sort(xs[1..], below), below);
      assert xs == [xs[0]] + xs[1..];
    }
  }

  lemma {:induction false} InsertOrders<T(!new)>(x: T, xs: seq<T>, below: Relation<T>)
    requires TotalPreorder(below) && Ordered(xs, below)
    ensures Ordered(Insert(x, xs, below), below)
    decreases |xs|
  {
    if xs != [] && !below(x, xs[0]) {
      InsertOrders(x, xs[1..], below);
      InsertKeeps(x, xs[1..], below);
      forall y | y in Insert(x, xs[1..], below) ensures below(xs[0], y) {
        assert y in multiset(Insert(x, xs[1..], below));
        if y != x { assert y in xs[1..]; }
      }
    }
  }

  lemma {:induction false} SortOrders<T(!new)>(xs: seq<T>, below: Relation<T>)
    requires TotalPreorder(below)
    ensures Ordered(Sort(xs, below), below)
    decreases |xs|
  {
    if xs != [] {
      SortOrders(xs[1..], below);
      InsertOrders(xs[0], Sort(xs[1..], below), below);
    }
  }

  lemma SameMembers<T(!new)>(xs: seq<T>, ys: seq<T>)
    requires multiset(xs) == multiset(ys)
    ensures SameElements(xs, ys)
  {
    forall x ensures x in xs <==> x in ys {
      assert x in xs <==> x in multiset(xs);
      assert x in ys <==> x in multiset(ys);
    }
  }

  lemma {:induction false} SortedStays<T(!new)>(xs: seq<T>, below: Relation<T>)
    requires Ordered(xs, below)
    ensures Sort(xs, below) == xs
    decreases |xs|
  {
    if xs != [] {
      SortedStays(xs[1..], below);
      assert xs == [xs[0]] + xs[1..];
      assert |xs| > 1 ==> below(xs[0], xs[1]);
    }
  }

  /** A list is fixed by its elements and its order when no two of its elements tie. */
  lemma {:induction false} OrderFixesTheList<T(!new)>(xs: seq<T>, ys: seq<T>, below: Relation<T>)
    requires multiset(xs) == multiset(ys) && Ordered(xs, below) && Ordered(ys, below)
    requires Untied(xs, below)
    ensures xs == ys
    decreases |xs|
  {
    assert |xs| == |multiset(xs)| && |ys| == |multiset(ys)|;
    if xs != [] {
      SameMembers(xs, ys);
      FirstIsBelowAll(xs, ys, below);
      WithoutFirst(xs);
      WithoutFirst(ys);
      OrderFixesTheList(xs[1..], ys[1..], below);
    }
  }

  lemma WithoutFirst<T>(xs: seq<T>)
    requires xs != []
    ensures multiset(xs[1..]) == multiset(xs) - multiset{xs[0]} && xs == [xs[0]] + xs[1..]
  {
    assert xs == [xs[0]] + xs[1..];
  }

  lemma FirstIsBelowAll<T(!new)>(xs: seq<T>, ys: seq<T>, below: Relation<T>)
    requires xs != [] && ys != [] && SameElements(xs, ys) && Ordered(xs, below) && Ordered(ys, below)
    requires Untied(xs, below)
    ensures xs[0] == ys[0]
  {
    assert xs[0] in ys && ys[0] in xs;
    var i :| 0 <= i < |ys| && ys[i] == xs[0];
    var j :| 0 <= j < |xs| && xs[j] == ys[0];
    assert !Tied(below, xs[0], ys[0]);
  }

  // ---------------------------------------------------------------------------
  // Sets written as sorted lists
  // ---------------------------------------------------------------------------

  /** The first occurrence of every element, as a JavaScript Set iterates. */
  function Distinct<T(==)>(xs: seq<T>): seq<T>
    decreases |xs|
  {
    if xs == [] then []
    else
      var (front, last) := (xs[..|xs| - 1], xs[|xs| - 1]);
      if last in front then Distinct(front) else Distinct(front) + [last]
  }

  function CanonicalSet<T(==)>(xs: seq<T>, below: Relation<T>): seq<T> {
    Sort(Distinct(xs), below)
  }

  lemma {:induction false} DistinctKeepsElements<T(!new)>(xs: seq<T>)
    ensures SameElements(Distinct(xs), xs) && Unique(Distinct(xs))
    decreases |xs|
  {
    if xs != [] {
      DistinctKeepsElements(xs[..|xs| - 1]);
      assert xs == xs[..|xs| - 1] + [xs[|xs| - 1]];
    }
  }

  lemma {:induction false} UniqueStays<T>(xs: seq<T>)
    requires Unique(xs)
    ensures Distinct(xs) == xs
    decreases |xs|
  {
    if xs != [] {
      UniqueStays(xs[..|xs| - 1]);
      assert xs == xs[..|xs| - 1] + [xs[|xs| - 1]];
    }
  }

  lemma UniqueSplit<T>(xs: seq<T>)
    requires Unique(xs) && xs != []
    ensures xs[0] !in xs[1..] && Unique(xs[1..]) && xs == [xs[0]] + xs[1..]
  {}

  lemma {:induction false} UniqueCounts<T>(xs: seq<T>, x: T)
    requires Unique(xs)
    ensures multiset(xs)[x] == if x in xs then 1 else 0
    decreases |xs|
  {
    if xs != [] {
      UniqueSplit(xs);
      UniqueCounts(xs[1..], x);
    }
  }

  lemma UniqueSameElements<T(!new)>(xs: seq<T>, ys: seq<T>)
    requires Unique(xs) && Unique(ys) && SameElements(xs, ys)
    ensures multiset(xs) == multiset(ys)
  {
    forall x ensures multiset(xs)[x] == multiset(ys)[x] {
      UniqueCounts(xs, x);
      UniqueCounts(ys, x);
    }
  }

  lemma {:induction false} CountsMakeUnique<T>(xs: seq<T>)
    requires forall x :: x in xs ==> multiset(xs)[x] == 1
    ensures Unique(xs)
    decreases |xs|
  {
    if xs != [] {
      assert xs == [xs[0]] + xs[1..];
      assert xs[0] in xs;
      assert multiset(xs) == multiset{xs[0]} + multiset(xs[1..]);
      assert xs[0] !in multiset(xs[1..]);
      forall x | x in xs[1..] ensures multiset(xs[1..])[x] == 1 {
        assert x in xs && x in multiset(xs[1..]);
      }
      CountsMakeUnique(xs[1..]);
    }
  }

  lemma SortKeepsUnique<T(!new)>(xs: seq<T>, below: Relation<T>)
    requires Unique(xs)
    ensures Unique(Sort(xs, below)) && SameElements(Sort(xs, below), xs)
  {
    SortPermutes(xs, below);
    SameMembers(Sort(xs, below), xs);
    forall x | x in Sort(xs, below) ensures multiset(Sort(xs, below))[x] == 1 {
      UniqueCounts(xs, x);
    }
    CountsMakeUnique(Sort(xs, below));
  }

  lemma CanonicalSetElements<T(!new)>(xs: seq<T>, below: Relation<T>)
    ensures SameElements(CanonicalSet(xs, below), xs) && Unique(CanonicalSet(xs, below))
  {
    DistinctKeepsElements(xs);
    SortKeepsUnique(Distinct(xs), below);
  }

  lemma CanonicalSetIsIdempotent<T(!new)>(xs: seq<T>, below: Relation<T>)
    requires TotalPreorder(below)
    ensures CanonicalSet(CanonicalSet(xs, below), below) == CanonicalSet(xs, below)
  {
    CanonicalSetElements(xs, below);
    UniqueStays(CanonicalSet(xs, below));
    SortOrders(Distinct(xs), below);
    SortedStays(CanonicalSet(xs, below), below);
  }

  lemma UntiedElements<T(!new)>(xs: seq<T>, ys: seq<T>, below: Relation<T>)
    requires SameElements(xs, ys)
    ensures Untied(xs, below) <==> Untied(ys, below)
  {
    if Untied(xs, below) { UntiedCarriesOver(xs, ys, below); }
    if Untied(ys, below) { UntiedCarriesOver(ys, xs, below); }
  }

  lemma UntiedCarriesOver<T(!new)>(xs: seq<T>, ys: seq<T>, below: Relation<T>)
    requires SameElements(xs, ys) && Untied(xs, below)
    ensures Untied(ys, below)
  {
    forall i, j | 0 <= i < |ys| && 0 <= j < |ys| ensures !Tied(below, ys[i], ys[j]) {
      assert ys[i] in xs && ys[j] in xs;
      var k :| 0 <= k < |xs| && xs[k] == ys[i];
      var l :| 0 <= l < |xs| && xs[l] == ys[j];
      assert !Tied(below, xs[k], xs[l]);
    }
  }

  /** The written set says which elements there are and, without ties, nothing else. */
  lemma CanonicalSetIsTheSet<T(!new)>(xs: seq<T>, ys: seq<T>, below: Relation<T>)
    requires TotalPreorder(below) && Untied(xs, below)
    ensures CanonicalSet(xs, below) == CanonicalSet(ys, below) <==> SameElements(xs, ys)
  {
    CanonicalSetElements(xs, below);
    CanonicalSetElements(ys, below);
    if SameElements(xs, ys) {
      UntiedElements(xs, CanonicalSet(xs, below), below);
      UniqueSameElements(CanonicalSet(xs, below), CanonicalSet(ys, below));
      SortOrders(Distinct(xs), below);
      SortOrders(Distinct(ys), below);
      OrderFixesTheList(CanonicalSet(xs, below), CanonicalSet(ys, below), below);
    }
  }

  /** The written set never confuses two sets, ties or not. */
  lemma EqualSetsHaveTheSameElements<T(!new)>(xs: seq<T>, ys: seq<T>, below: Relation<T>)
    requires CanonicalSet(xs, below) == CanonicalSet(ys, below)
    ensures SameElements(xs, ys)
  {
    CanonicalSetElements(xs, below);
    CanonicalSetElements(ys, below);
  }

  // ---------------------------------------------------------------------------
  // Ties show the order of the input
  // ---------------------------------------------------------------------------

  ghost predicate Precedes<T>(xs: seq<T>, a: T, b: T) {
    exists p, q :: 0 <= p < q < |xs| && xs[p] == a && xs[q] == b
  }

  lemma PrecedesBehind<T>(x: T, xs: seq<T>, a: T, b: T)
    requires Precedes(xs, a, b)
    ensures Precedes([x] + xs, a, b)
  {
    var p, q :| 0 <= p < q < |xs| && xs[p] == a && xs[q] == b;
    assert ([x] + xs)[p + 1] == a && ([x] + xs)[q + 1] == b;
  }

  lemma PrecedesAll<T>(x: T, xs: seq<T>, b: T)
    requires b in xs
    ensures Precedes([x] + xs, x, b)
  {
    var q :| 0 <= q < |xs| && xs[q] == b;
    assert ([x] + xs)[0] == x && ([x] + xs)[q + 1] == b;
  }

  lemma {:induction false} InsertedBefore<T>(x: T, xs: seq<T>, b: T, below: Relation<T>)
    requires b in xs && below(x, b)
    ensures Precedes(Insert(x, xs, below), x, b)
    decreases |xs|
  {
    if below(x, xs[0]) {
      PrecedesAll(x, xs, b);
    } else {
      InsertedBefore(x, xs[1..], b, below);
      PrecedesBehind(xs[0], Insert(x, xs[1..], below), x, b);
    }
  }

  lemma {:induction false} InsertKeepsOrder<T>(x: T, xs: seq<T>, a: T, b: T, below: Relation<T>)
    requires Precedes(xs, a, b)
    ensures Precedes(Insert(x, xs, below), a, b)
    decreases |xs|
  {
    if below(x, xs[0]) {
      PrecedesBehind(x, xs, a, b);
    } else {
      var p, q :| 0 <= p < q < |xs| && xs[p] == a && xs[q] == b;
      var rest := Insert(x, xs[1..], below);
      InsertKeeps(x, xs[1..], below);
      if p == 0 {
        assert xs[1..][q - 1] == b;
        assert b in multiset(rest);
        PrecedesAll(xs[0], rest, b);
      } else {
        assert xs[1..][p - 1] == a && xs[1..][q - 1] == b;
        InsertKeepsOrder(x, xs[1..], a, b, below);
        PrecedesBehind(xs[0], rest, a, b);
      }
    }
  }

  /** The sort is stable: what is not above what follows it stays before it. */
  lemma {:induction false} SortIsStable<T(!new)>(xs: seq<T>, a: T, b: T, below: Relation<T>)
    requires Precedes(xs, a, b) && below(a, b)
    ensures Precedes(Sort(xs, below), a, b)
    decreases |xs|
  {
    var p, q :| 0 <= p < q < |xs| && xs[p] == a && xs[q] == b;
    var rest := Sort(xs[1..], below);
    SortPermutes(xs[1..], below);
    if p == 0 {
      assert xs[1..][q - 1] == b;
      assert b in multiset(rest);
      InsertedBefore(a, rest, b, below);
    } else {
      assert xs[1..][p - 1] == a && xs[1..][q - 1] == b;
      SortIsStable(xs[1..], a, b, below);
      InsertKeepsOrder(xs[0], rest, a, b, below);
    }
  }

  function Reversed<T>(xs: seq<T>): (r: seq<T>)
    ensures |r| == |xs| && forall i :: 0 <= i < |xs| ==> r[i] == xs[|xs| - 1 - i]
  {
    seq(|xs|, i requires 0 <= i < |xs| => xs[|xs| - 1 - i])
  }

  lemma ReversedElements<T(!new)>(xs: seq<T>)
    ensures SameElements(Reversed(xs), xs) && (Unique(xs) ==> Unique(Reversed(xs)))
  {
    forall x ensures x in xs <==> x in Reversed(xs) {
      if x in xs {
        var i :| 0 <= i < |xs| && xs[i] == x;
        assert Reversed(xs)[|xs| - 1 - i] == x;
      }
    }
  }

  /** A sorted list of different elements forgets how they came exactly when no two of them tie. */
  lemma SortForgetsOrderExactlyWithoutTies<T(!new)>(xs: seq<T>, below: Relation<T>)
    requires TotalPreorder(below) && Unique(xs)
    ensures Sort(Reversed(xs), below) == Sort(xs, below) <==> Untied(xs, below)
  {
    ReversedElements(xs);
    if Untied(xs, below) {
      UniqueSameElements(xs, Reversed(xs));
      SortPermutes(xs, below);
      SortPermutes(Reversed(xs), below);
      SortOrders(xs, below);
      SortOrders(Reversed(xs), below);
      SortKeepsUnique(xs, below);
      UntiedElements(xs, Sort(xs, below), below);
      OrderFixesTheList(Sort(xs, below), Sort(Reversed(xs), below), below);
    } else {
      var i, j :| 0 <= i < |xs| && 0 <= j < |xs| && Tied(below, xs[i], xs[j]);
      if i < j { TiesShow(xs, i, j, below); } else { TiesShow(xs, j, i, below); }
    }
  }

  lemma TiesShow<T(!new)>(xs: seq<T>, i: int, j: int, below: Relation<T>)
    requires Unique(xs) && 0 <= i < j < |xs| && Tied(below, xs[i], xs[j])
    ensures Sort(Reversed(xs), below) != Sort(xs, below)
  {
    var a, b, n := xs[i], xs[j], |xs|;
    assert Precedes(xs, a, b);
    assert Reversed(xs)[n - 1 - j] == b && Reversed(xs)[n - 1 - i] == a;
    assert Precedes(Reversed(xs), b, a);
    SortIsStable(xs, a, b, below);
    SortIsStable(Reversed(xs), b, a, below);
    SortKeepsUnique(xs, below);
    OneOrder(Sort(xs, below), a, b);
  }

  lemma OneOrder<T>(xs: seq<T>, a: T, b: T)
    requires Unique(xs) && Precedes(xs, a, b)
    ensures !Precedes(xs, b, a)
  {
    var p, q :| 0 <= p < q < |xs| && xs[p] == a && xs[q] == b;
    forall k, l | 0 <= k < l < |xs| ensures !(xs[k] == b && xs[l] == a) {
      assert xs[k] == xs[q] ==> k == q;
      assert xs[l] == xs[p] ==> l == p;
    }
  }

  /** The written set ignores order and repetition exactly when no two of its elements tie. */
  lemma OrderIsIgnoredExactlyWithoutTies<T(!new)>(xs: seq<T>, below: Relation<T>)
    requires TotalPreorder(below)
    ensures (forall ys :: SameElements(xs, ys) ==> CanonicalSet(ys, below) == CanonicalSet(xs, below)) <==> Untied(xs, below)
  {
    if Untied(xs, below) {
      forall ys | SameElements(xs, ys) ensures CanonicalSet(ys, below) == CanonicalSet(xs, below) {
        CanonicalSetIsTheSet(xs, ys, below);
      }
    } else {
      AnotherOrderOfASet(xs, below);
    }
  }

  /** A list of the same elements, each once, that is written differently if two of them tie. */
  function OtherOrder<T(==)>(xs: seq<T>): seq<T> {
    Reversed(Distinct(xs))
  }

  lemma AnotherOrderOfASet<T(!new)>(xs: seq<T>, below: Relation<T>)
    requires TotalPreorder(below)
    ensures SameElements(OtherOrder(xs), xs)
    ensures CanonicalSet(OtherOrder(xs), below) == CanonicalSet(xs, below) <==> Untied(xs, below)
  {
    DistinctKeepsElements(xs);
    ReversedElements(Distinct(xs));
    UniqueStays(OtherOrder(xs));
    UntiedElements(xs, Distinct(xs), below);
    SortForgetsOrderExactlyWithoutTies(Distinct(xs), below);
  }

  // ---------------------------------------------------------------------------
  // The default order of strings
  // ---------------------------------------------------------------------------

  /** The order of Array.prototype.sort without a comparator. */
  function ByCodeUnit(): Relation<string> {
    (x: string, y: string) => CompareText(x, y) <= 0
  }

  lemma CodeUnitsNeverTie()
    ensures TotalPreorder(ByCodeUnit()) && forall x, y :: !Tied(ByCodeUnit(), x, y)
  {
    var below := ByCodeUnit();
    forall x, y ensures (below(x, y) || below(y, x)) && !Tied(below, x, y) {
      TextOrder(x, y);
    }
    forall x, y, z | below(x, y) && below(y, z) ensures below(x, z) {
      TextOrder(x, y);
      TextOrder(y, z);
      TextOrder(x, z);
      if CompareText(x, y) < 0 && CompareText(y, z) < 0 { TextTransitive(x, y, z); }
    }
  }
}
