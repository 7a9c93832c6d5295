/**
 The command-line suggestion picker of apps/cli/src/validation.ts: the two-row edit
 distance, tied to the recursive distance and to shortest edit scripts, and the
 choice of the closest candidate.
 */
module EditDistance {
  import opened Commons
  import opened Sorting

  function Min(x: nat, y: nat): nat {
    if x <= y then x else y
  }

  function Cost(x: char, y: char): nat {
    if x == y then 0 else 1
  }

  function Init(s: string): string
    requires s != []
  {
    s[..|s| - 1]
  }

  function Last(s: string): char
    requires s != []
  {
    s[|s| - 1]
  }

  /** The recursive edit distance, on last characters. */
  function Dist(a: string, b: string): nat
    decreases |a| + |b|
  {
    if a == [] then |b|
    else if b == [] then |a|
    else
      Min(Min(Dist(Init(a), b) + 1, Dist(a, Init(b)) + 1), Dist(Init(a), Init(b)) + Cost(Last(a), Last(b)))
  }

  // ---------------------------------------------------------------------------
  // The two-row algorithm
  // ---------------------------------------------------------------------------

  /** Cell (i, j) of a table follows from its three neighbours. */
  ghost predicate Follows(left: string, right: string, t: seq<seq<nat>>, i: nat, j: nat)
    requires Shaped(left, right, t) && 1 <= i <= |left| && 1 <= j <= |right|
  {
    t[i][j] == Min(Min(t[i - 1][j] + 1, t[i][j - 1] + 1), t[i - 1][j - 1] + Cost(left[i - 1], right[j - 1]))
  }

  ghost predicate Shaped(left: string, right: string, t: seq<seq<nat>>) {
    |t| == |left| + 1 && forall i :: 0 <= i <= |left| ==> |t[i]| == |right| + 1
  }

  /** All the distances between prefixes, with the recurrence that links neighbouring cells. */
  lemma DistTable(left: string, right: string) returns (t: seq<seq<nat>>)
    ensures Shaped(left, right, t)
    ensures forall j :: 0 <= j <= |right| ==> t[0][j] == j
    ensures forall i :: 0 <= i <= |left| ==> t[i][0] == i
    ensures forall i, j :: 1 <= i <= |left| && 1 <= j <= |right| ==> Follows(left, right, t, i, j)
    ensures t[|left|][|right|] == Dist(left, right)
  {
    t := BuildTable(left, right);
    forall i, j | 1 <= i <= |left| && 1 <= j <= |right| ensures Follows(left, right, t, i, j) {
      ExactFollows(left, right, t, i, j);
    }
    forall j | 0 <= j <= |right| ensures t[0][j] == j {
      assert t[0][j] == Dist(left[..0], right[..j]);
    }
    forall i | 0 <= i <= |left| ensures t[i][0] == i {
      assert t[i][0] == Dist(left[..i], right[..0]);
    }
    assert t[|left|][|right|] == Dist(left[..|left|], right[..|right|]);
    assert left[..|left|] == left && right[..|right|] == right;
  }

  ghost predicate Exact(left: string, right: string, t: seq<seq<nat>>) {
    && Shaped(left, right, t)
    && forall i, j :: 0 <= i <= |left| && 0 <= j <= |right| ==> t[i][j] == Dist(left[..i], right[..j])
  }

  lemma BuildTable(left: string, right: string) returns (t: seq<seq<nat>>)
    ensures Exact(left, right, t)
  {
    t := seq(|left| + 1, i requires 0 <= i <= |left| =>
           seq(|right| + 1, j requires 0 <= j <= |right| => Dist(left[..i], right[..j])));
  }

  lemma ExactFollows(left: string, right: string, t: seq<seq<nat>>, i: nat, j: nat)
    requires Exact(left, right, t) && 1 <= i <= |left| && 1 <= j <= |right|
    ensures Follows(left, right, t, i, j)
  {
    var x, y := left[..i], right[..j];
    PrefixEnds(left, i);
    PrefixEnds(right, j);
    assert t[i][j] == Dist(x, y);
    assert t[i - 1][j] == Dist(Init(x), y);
    assert t[i][j - 1] == Dist(x, Init(y));
    assert t[i - 1][j - 1] == Dist(Init(x), Init(y));
  }

  lemma PrefixEnds(s: string, i: nat)
    requires 1 <= i <= |s|
    ensures Init(s[..i]) == s[..i - 1] && Last(s[..i]) == s[i - 1]
  {}

  method Distance(left: string, right: string) returns (d: nat)
    ensures d == Dist(left, right)
  {
    if |left| == 0 { return |right|; }
    if |right| == 0 { return |left|; }
    ghost var t := DistTable(left, right);
    var n := |right|;
    var previous := new nat[n + 1](index => index);
    var current := new nat[n + 1](_ => 0);
    for leftIndex := 1 to |left| + 1
      invariant previous != current && fresh(previous) && fresh(current)
      invariant previous.Length == n + 1 && current.Length == n + 1
      invariant forall j :: 0 <= j <= n ==> previous[j] == t[leftIndex - 1][j]
    {
      current[0] := leftIndex;
      for rightIndex := 1 to n + 1
        invariant forall j :: 0 <= j <= n ==> previous[j] == t[leftIndex - 1][j]
        invariant forall j :: 0 <= j < rightIndex ==> current[j] == t[leftIndex][j]
      {
        assert Follows(left, right, t, leftIndex, rightIndex);
        current[rightIndex] :=
          Min(Min(previous[rightIndex] + 1, current[rightIndex - 1] + 1),
              previous[rightIndex - 1] + Cost(left[leftIndex - 1], right[rightIndex - 1]));
      }
      previous, current := current, previous;
    }
    d := previous[n];
  }

  // ---------------------------------------------------------------------------
  // The distance is a metric
  // ---------------------------------------------------------------------------

  lemma {:induction false} ZeroIffEqual(a: string, b: string)
    ensures Dist(a, b) == 0 <==> a == b
    decreases |a| + |b|
  {
    if a != [] && b != [] {
      ZeroIffEqual(Init(a), Init(b));
      assert a == Init(a) + [Last(a)] && b == Init(b) + [Last(b)];
    }
  }

  lemma {:induction false} Symmetric(a: string, b: string)
    ensures Dist(a, b) == Dist(b, a)
    decreases |a| + |b|
  {
    if a != [] && b != [] {
      Symmetric(Init(a), b);
      Symmetric(a, Init(b));
      Symmetric(Init(a), Init(b));
    }
  }

  lemma {:induction false} LengthBounds(a: string, b: string)
    ensures |a| <= |b| + Dist(a, b) && |b| <= |a| + Dist(a, b) && Dist(a, b) <= |a| + |b|
    decreases |a| + |b|
  {
    if a != [] && b != [] {
      LengthBounds(Init(a), b);
      LengthBounds(a, Init(b));
      LengthBounds(Init(a), Init(b));
    }
  }

  lemma {:induction false} Triangle(a: string, b: string, c: string)
    ensures Dist(a, c) <= Dist(a, b) + Dist(b, c)
    decreases |a| + |b| + |c|
  {
    LengthBounds(a, b);
    LengthBounds(b, c);
    LengthBounds(a, c);
    if a != [] && b != [] && c != [] {
      // The last step of a cheapest a-to-b edit against the last step of a cheapest b-to-c edit.
      if Dist(a, b) == Dist(Init(a), b) + 1 {
        Triangle(Init(a), b, c);
      } else if Dist(b, c) == Dist(b, Init(c)) + 1 {
        Triangle(a, b, Init(c));
      } else if Dist(a, b) == Dist(a, Init(b)) + 1 {
        if Dist(b, c) == Dist(Init(b), c) + 1 {
          Triangle(a, Init(b), c);
        } else {
          Triangle(a, Init(b), Init(c));
        }
      } else if Dist(b, c) == Dist(Init(b), c) + 1 {
        Triangle(Init(a), Init(b), c);
      } else {
        Triangle(Init(a), Init(b), Init(c));
      }
    }
  }

  // ---------------------------------------------------------------------------
  // The distance is the length of a shortest edit script
  // ---------------------------------------------------------------------------

  ghost predicate Deletes(s: string, t: string) {
    |s| == |t| + 1 && exists i :: 0 <= i <= |t| && s == t[..i] + [s[i]] + t[i..]
  }

  ghost predicate Replaces(s: string, t: string) {
    |s| == |t| && exists i :: 0 <= i < |s| && s[..i] == t[..i] && s[i + 1..] == t[i + 1..]
  }

  /** One insertion, deletion or replacement of a single character. */
  ghost predicate OneEdit(s: string, t: string) {
    Deletes(s, t) || Deletes(t, s) || Replaces(s, t)
  }

  /** A script is the sequence of strings it passes through; it makes |p| - 1 edits. */
  ghost predicate Script(p: seq<string>, a: string, b: string) {
    && 0 < |p| && p[0] == a && p[|p| - 1] == b
    && forall k :: 0 <= k < |p| - 1 ==> OneEdit(p[k], p[k + 1])
  }

  lemma {:induction false} CommonSuffix(s: string, t: string, u: string)
    ensures Dist(s + u, t + u) <= Dist(s, t)
  {
    if u == [] {
      assert s + u == s && t + u == t;
    } else {
      CommonSuffix(s, t, Init(u));
      assert u == Init(u) + [Last(u)];
      assert Init(s + u) == s + Init(u) && Init(t + u) == t + Init(u);
    }
  }

  lemma AppendOne(s: string, x: char)
    ensures Dist(s + [x], s) <= 1 && Dist(s, s + [x]) <= 1
  {
    ZeroIffEqual(s, s);
    assert Init(s + [x]) == s;
    Symmetric(s, s + [x]);
  }

  lemma OneEditCostsOne(s: string, t: string)
    requires OneEdit(s, t)
    ensures Dist(s, t) <= 1
  {
    if Deletes(s, t) {
      DeletionCostsOne(s, t);
    } else if Deletes(t, s) {
      DeletionCostsOne(t, s);
      Symmetric(s, t);
    } else {
      ReplacementCostsOne(s, t);
    }
  }

  lemma ReplacementParts(s: string, t: string) returns (i: nat)
    requires Replaces(s, t)
    ensures i < |s| && s == s[..i] + [s[i]] + s[i + 1..] && t == s[..i] + [t[i]] + s[i + 1..]
  {
    i :| 0 <= i < |s| && s[..i] == t[..i] && s[i + 1..] == t[i + 1..];
  }

  lemma ReplacementCostsOne(s: string, t: string)
    requires Replaces(s, t)
    ensures Dist(s, t) <= 1
  {
    var i := ReplacementParts(s, t);
    InnerReplacementCostsOne(s[..i], s[i], t[i], s[i + 1..]);
  }

  lemma InnerReplacementCostsOne(head: string, x: char, y: char, tail: string)
    ensures Dist(head + [x] + tail, head + [y] + tail) <= 1
  {
    LastReplacementCostsOne(head, x, y);
    CommonSuffix(head + [x], head + [y], tail);
  }

  lemma LastReplacementCostsOne(head: string, x: char, y: char)
    ensures Dist(head + [x], head + [y]) <= 1
  {
    ZeroIffEqual(head, head);
    assert Init(head + [x]) == head && Init(head + [y]) == head;
  }

  lemma DeletionCostsOne(s: string, t: string)
    requires Deletes(s, t)
    ensures Dist(s, t) <= 1
  {
    var i :| 0 <= i <= |t| && s == t[..i] + [s[i]] + t[i..];
    AppendOne(t[..i], s[i]);
    CommonSuffix(t[..i] + [s[i]], t[..i], t[i..]);
    assert t == t[..i] + t[i..];
  }

  /** No script is shorter than the distance. */
  lemma {:induction false} NoShorterScript(p: seq<string>, a: string, b: string)
    requires Script(p, a, b)
    ensures Dist(a, b) <= |p| - 1
  {
    if |p| == 1 {
      ZeroIffEqual(a, b);
    } else {
      assert Script(p[1..], p[1], b);
      NoShorterScript(p[1..], p[1], b);
      assert OneEdit(p[0], p[1]);
      OneEditCostsOne(a, p[1]);
      Triangle(a, p[1], b);
    }
  }

  lemma EditUnderSuffix(s: string, t: string, x: char)
    requires OneEdit(s, t)
    ensures OneEdit(s + [x], t + [x])
  {
    if Deletes(s, t) {
      DeleteUnderSuffix(s, t, x);
    } else if Deletes(t, s) {
      DeleteUnderSuffix(t, s, x);
    } else {
      var i :| 0 <= i < |s| && s[..i] == t[..i] && s[i + 1..] == t[i + 1..];
      assert (s + [x])[..i] == (t + [x])[..i] && (s + [x])[i + 1..] == (t + [x])[i + 1..];
    }
  }

  lemma DeleteUnderSuffix(s: string, t: string, x: char)
    requires Deletes(s, t)
    ensures Deletes(s + [x], t + [x])
  {
    var i :| 0 <= i <= |t| && s == t[..i] + [s[i]] + t[i..];
    assert s + [x] == (t + [x])[..i] + [(s + [x])[i]] + (t + [x])[i..];
  }

  lemma ScriptUnderSuffix(p: seq<string>, a: string, b: string, x: char) returns (q: seq<string>)
    requires Script(p, a, b)
    ensures Script(q, a + [x], b + [x]) && |q| == |p|
  {
    q := seq(|p|, k requires 0 <= k < |p| => p[k] + [x]);
    forall k | 0 <= k < |q| - 1 ensures OneEdit(q[k], q[k + 1]) {
      EditUnderSuffix(p[k], p[k + 1], x);
    }
  }

  lemma DropLast(s: string)
    requires s != []
    ensures Deletes(s, Init(s))
  {
    var n := |s| - 1;
    assert s == Init(s)[..n] + [s[n]] + Init(s)[n..];
  }

  lemma SwapLast(s: string, x: char, y: char)
    ensures Replaces(s + [x], s + [y])
  {
    var n := |s|;
    assert (s + [x])[..n] == (s + [y])[..n] && (s + [x])[n + 1..] == (s + [y])[n + 1..];
  }

  lemma Prepend(a: string, p: seq<string>, b: string, c: string)
    requires OneEdit(a, b) && Script(p, b, c)
    ensures Script([a] + p, a, c)
  {
    var q := [a] + p;
    forall k | 0 <= k < |q| - 1 ensures OneEdit(q[k], q[k + 1]) {
      assert k != 0 ==> q[k] == p[k - 1];
    }
  }

  lemma Append(p: seq<string>, a: string, b: string, c: string)
    requires Script(p, a, b) && OneEdit(b, c)
    ensures Script(p + [c], a, c)
  {}

  /** Some script is exactly as long as the distance. */
  lemma {:induction false} CheapestScript(a: string, b: string) returns (p: seq<string>)
    ensures Script(p, a, b) && |p| - 1 == Dist(a, b)
    decreases |a| + |b|
  {
    if a == [] && b == [] {
      p := [a];
    } else if a != [] && (b == [] || Dist(a, b) == Dist(Init(a), b) + 1) {
      var q := CheapestScript(Init(a), b);
      DropLast(a);
      Prepend(a, q, Init(a), b);
      p := [a] + q;
    } else if b != [] && (a == [] || Dist(a, b) == Dist(a, Init(b)) + 1) {
      var q := CheapestScript(a, Init(b));
      DropLast(b);
      Append(q, a, Init(b), b);
      p := q + [b];
    } else {
      var q := CheapestScript(Init(a), Init(b));
      p := ScriptUnderSuffix(q, Init(a), Init(b), Last(a));
      assert a == Init(a) + [Last(a)] && b == Init(b) + [Last(b)];
      if Last(a) != Last(b) {
        SwapLast(Init(b), Last(a), Last(b));
        Append(p, a, Init(b) + [Last(a)], b);
        p := p + [b];
      }
    }
  }

  /** The distance is the least number of single-character edits that turn one string into the other. */
  lemma DistIsFewestEdits(a: string, b: string)
    ensures forall p :: Script(p, a, b) ==> Dist(a, b) <= |p| - 1
    ensures exists p :: Script(p, a, b) && |p| - 1 == Dist(a, b)
  {
    forall p | Script(p, a, b) ensures Dist(a, b) <= |p| - 1 {
      NoShorterScript(p, a, b);
    }
    var p := CheapestScript(a, b);
  }

  // ---------------------------------------------------------------------------
  // Picking a suggestion
  // ---------------------------------------------------------------------------

  datatype Scored = Scored(candidate: string, distance: nat)

  function Score(input: string, candidates: seq<string>): seq<Scored> {
    seq(|candidates|, i requires 0 <= i < |candidates| => Scored(candidates[i], Dist(input, candidates[i])))
  }

  function Near(items: seq<Scored>): seq<Scored> {
    if items == [] then []
    else (if items[0].distance <= 2 then [items[0]] else []) + Near(items[1..])
  }

  function ByDistance(): Relation<Scored> {
    (x: Scored, y: Scored) => x.distance <= y.distance
  }

  /** The stable sort by distance. */
  function SortByDistance(items: seq<Scored>): seq<Scored> {
    Sort(items, ByDistance())
  }

  function Closest(input: string, candidates: seq<string>): Option<string> {
    var sorted := SortByDistance(Near(Score(input, candidates)));
    if sorted == [] then None else Some(sorted[0].candidate)
  }

  /** items[i] is the first of the least distant items. */
  ghost predicate FirstLeast(items: seq<Scored>, i: nat) {
    && i < |items|
    && forall j :: 0 <= j < |items| ==>
         items[i].distance <= items[j].distance && (j < i ==> items[i].distance < items[j].distance)
  }

  lemma FirstLeastBehind(head: Scored, rest: seq<Scored>, k: nat)
    requires FirstLeast(rest, k) && rest[k].distance < head.distance
    ensures FirstLeast([head] + rest, k + 1)
  {
    var items := [head] + rest;
    assert forall j :: 1 <= j < |items| ==> items[j] == rest[j - 1];
  }

  /** The head of the filtered, stably sorted list is the first least distant item of the whole list. */
  lemma {:induction false} HeadIsFirstLeast(items: seq<Scored>) returns (k: nat)
    ensures SortByDistance(Near(items)) == [] <==> forall j :: 0 <= j < |items| ==> 2 < items[j].distance
    ensures SortByDistance(Near(items)) != [] ==>
              FirstLeast(items, k) && items[k] == SortByDistance(Near(items))[0] && items[k].distance <= 2
  {
    k := 0;
    if items != [] {
      var head, rest := items[0], items[1..];
      assert items == [head] + rest;
      k := HeadIsFirstLeast(rest);
      if head.distance <= 2 {
        assert Near(items) == [head] + Near(rest);
        assert Near(items)[1..] == Near(rest);
        if SortByDistance(Near(rest)) == [] || head.distance <= rest[k].distance {
          assert forall j :: 1 <= j < |items| ==> items[j] == rest[j - 1];
          k := 0;
        } else {
          FirstLeastBehind(head, rest, k);
          k := k + 1;
        }
      } else {
        assert Near(items) == Near(rest);
        if SortByDistance(Near(rest)) != [] {
          FirstLeastBehind(head, rest, k);
        }
        k := k + 1;
      }
    }
  }

  /** A suggestion is the first of the nearest candidates, and is withheld exactly when all are further than two edits. */
  lemma ClosestIsFirstNearest(input: string, candidates: seq<string>)
    ensures Closest(input, candidates) == None <==>
            forall j :: 0 <= j < |candidates| ==> 2 < Dist(input, candidates[j])
    ensures Closest(input, candidates).Some? ==>
              exists i :: 0 <= i < |candidates| && candidates[i] == Closest(input, candidates).value
                && Dist(input, candidates[i]) <= 2
                && forall j :: 0 <= j < |candidates| ==>
                     Dist(input, candidates[i]) <= Dist(input, candidates[j])
                     && (j < i ==> Dist(input, candidates[i]) < Dist(input, candidates[j]))
  {
    var items := Score(input, candidates);
    var k := HeadIsFirstLeast(items);
    assert forall j :: 0 <= j < |candidates| ==> items[j].distance == Dist(input, candidates[j]);
  }
}
