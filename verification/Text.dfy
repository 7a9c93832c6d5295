/** Strings as JavaScript and Python handle them: splitting and joining at a character, and the order of code units. */
module Text {
  function IndexOf(s: string, c: char): (i: nat)
    requires c in s
    ensures i < |s| && s[i] == c
    ensures forall k :: 0 <= k < i ==> s[k] != c
  {
    if s[0] == c then 0 else 1 + IndexOf(s[1..], c)
  }

  function Split(s: string, c: char): (parts: seq<string>)
    ensures parts != []
  {
    if c !in s then [s]
    else [s[..IndexOf(s, c)]] + Split(s[IndexOf(s, c) + 1..], c)
  }

  function Join(parts: seq<string>, c: char): string
    requires parts != []
  {
    if |parts| == 1 then parts[0] else parts[0] + [c] + Join(parts[1..], c)
  }

  lemma SplitUnfolds(s: string, c: char)
    requires c in s
    ensures Split(s, c)[0] == s[..IndexOf(s, c)] && Split(s, c)[1..] == Split(s[IndexOf(s, c) + 1..], c)
    ensures |Split(s, c)| > 1
  {
    var rest := Split(s[IndexOf(s, c) + 1..], c);
    assert ([s[..IndexOf(s, c)]] + rest)[1..] == rest;
  }

  lemma CutAt(s: string, i: nat)
    requires i < |s|
    ensures s == s[..i] + [s[i]] + s[i + 1..]
  {}

  lemma {:induction false} JoinSplit(s: string, c: char)
    ensures Join(Split(s, c), c) == s
  {
    if c in s {
      var i := IndexOf(s, c);
      JoinSplit(s[i + 1..], c);
      SplitUnfolds(s, c);
      CutAt(s, i);
    }
  }

  lemma {:induction false} SplitJoin(parts: seq<string>, c: char)
    requires parts != [] && forall p :: p in parts ==> c !in p
    ensures Split(Join(parts, c), c) == parts
  {
    if |parts| > 1 {
      SplitJoin(parts[1..], c);
      SplitFirst(parts[0], Join(parts[1..], c), c);
      assert parts == [parts[0]] + parts[1..];
    } else {
      assert parts[0] in parts;
    }
  }

  lemma SplitFirst(head: string, tail: string, c: char)
    requires c !in head
    ensures Split(head + [c] + tail, c) == [head] + Split(tail, c)
  {
    var s := head + [c] + tail;
    FirstIndex(head, tail, c);
    assert s[..|head|] == head && s[|head| + 1..] == tail;
  }

  lemma FirstIndex(head: string, tail: string, c: char)
    requires c !in head
    ensures c in head + [c] + tail && IndexOf(head + [c] + tail, c) == |head|
  {
    var s := head + [c] + tail;
    var i := |head|;
    assert s[i] == c;
    assert forall k :: 0 <= k < i ==> s[k] == head[k];
  }

  /** Splitting a text at one of its separators splits it into the parts before and after. */
  lemma {:induction false} SplitOfConcat(a: string, b: string, c: char)
    ensures Split(a + [c] + b, c) == Split(a, c) + Split(b, c)
    decreases |a|
  {
    if c !in a {
      SplitFirst(a, b, c);
    } else {
      var i := IndexOf(a, c);
      SplitOfConcat(a[i + 1..], b, c);
      CutAt(a, i);
      SplitHead(a[..i], a[i + 1..], b, c);
    }
  }

  lemma SplitHead(head: string, rest: string, b: string, c: char)
    requires c !in head && Split(rest + [c] + b, c) == Split(rest, c) + Split(b, c)
    ensures Split(head + [c] + rest + [c] + b, c) == Split(head + [c] + rest, c) + Split(b, c)
  {
    var tail := rest + [c] + b;
    Regroup(head + [c], rest, [c], b);
    SplitFirst(head, tail, c);
    SplitFirst(head, rest, c);
    Regroup([head], Split(rest, c), [], Split(b, c));
    assert Split(rest, c) + [] == Split(rest, c) && [head] + Split(rest, c) + [] == [head] + Split(rest, c);
  }

  lemma Regroup<T>(x: seq<T>, y: seq<T>, z: seq<T>, w: seq<T>)
    ensures x + y + z + w == x + (y + z + w)
  {}

  lemma {:induction false} JoinOfConcat(xs: seq<string>, ys: seq<string>, c: char)
    requires xs != [] && ys != []
    ensures Join(xs + ys, c) == Join(xs, c) + [c] + Join(ys, c)
  {
    if |xs| == 1 {
      assert (xs + ys)[1..] == ys;
    } else {
      JoinOfConcat(xs[1..], ys, c);
      assert (xs + ys)[1..] == xs[1..] + ys;
    }
  }

  /** The order of JavaScript strings: by the first differing character, a prefix first. */
  function CompareText(s: string, t: string): int {
    if s == t then 0
    else if s == [] then -1
    else if t == [] then 1
    else if s[0] != t[0] then (if s[0] < t[0] then -1 else 1)
    else CompareText(s[1..], t[1..])
  }

  lemma {:induction false} TextOrder(s: string, t: string)
    ensures CompareText(s, t) == 0 <==> s == t
    ensures CompareText(s, t) == -CompareText(t, s)
  {
    if s != [] && t != [] {
      TextOrder(s[1..], t[1..]);
      assert s == [s[0]] + s[1..] && t == [t[0]] + t[1..];
    }
  }

  lemma {:induction false} TextTransitive(s: string, t: string, u: string)
    requires CompareText(s, t) < 0 && CompareText(t, u) < 0
    ensures CompareText(s, u) < 0
  {
    if s != [] && t != [] && u != [] {
      if s[0] == t[0] == u[0] {
        TextTransitive(s[1..], t[1..], u[1..]);
      }
    }
  }
}
