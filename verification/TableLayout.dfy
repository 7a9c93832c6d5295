/**
 Column widths and cell wrapping of the terminal tables in apps/cli/src/output.tsx. Both loops are
 proved against rules that leave exactly one result.
 */
module TableLayout {

  const TABLE_GAP := 2

  // ---------------------------------------------------------------------------
  // Column widths
  // ---------------------------------------------------------------------------

  function Sum(widths: seq<int>): int {
    if widths == [] then 0 else widths[0] + Sum(widths[1..])
  }

  function Gaps(columns: nat): int {
    TABLE_GAP * (columns - 1)
  }

  /** The widest of the header and the cells of one column; a short row has an empty cell there. */
  function Natural(header: string, rows: seq<seq<string>>, column: nat): int {
    if rows == [] then |header|
    else
      var rest := Natural(header, rows[1..], column);
      var cell := if column < |rows[0]| then |rows[0][column]| else 0;
      if cell > rest then cell else rest
  }

  function Naturals(headers: seq<string>, rows: seq<seq<string>>): seq<int> {
    seq(|headers|, i requires 0 <= i < |headers| => Natural(headers[i], rows, i))
  }

  function Floors(headers: seq<string>): seq<int> {
    seq(|headers|, i requires 0 <= i < |headers| => |headers[i]|)
  }

  lemma {:induction false} NaturalHoldsEverything(header: string, rows: seq<seq<string>>, column: nat)
    ensures Natural(header, rows, column) >= |header|
    ensures forall r :: 0 <= r < |rows| && column < |rows[r]| ==> Natural(header, rows, column) >= |rows[r][column]|
    ensures Natural(header, rows, column) == |header|
         || exists r :: 0 <= r < |rows| && column < |rows[r]| && Natural(header, rows, column) == |rows[r][column]|
  {
    if rows != [] {
      NaturalHoldsEverything(header, rows[1..], column);
      forall r | 0 <= r < |rows| && column < |rows[r]| ensures Natural(header, rows, column) >= |rows[r][column]| {
        if r > 0 { assert rows[r] == rows[1..][r - 1]; }
      }
      if Natural(header, rows[1..], column) != |header| {
        var r :| 0 <= r < |rows| - 1 && column < |rows[1..][r]| && Natural(header, rows[1..], column) == |rows[1..][r][column]|;
        assert rows[r + 1] == rows[1..][r];
      }
    }
  }

  ghost predicate AnyAbove(widths: seq<int>, floors: seq<int>) {
    exists i :: 0 <= i < |widths| && i < |floors| && widths[i] > floors[i]
  }

  /** Widths only shrink, stay non-negative, and pass below a floor only when no column is above its own. */
  ghost predicate Bounded(widths: seq<int>, naturals: seq<int>, floors: seq<int>) {
    |widths| == |naturals| == |floors|
    && (forall i :: 0 <= i < |widths| ==> 0 <= widths[i] <= naturals[i])
    && (AnyAbove(widths, floors) ==> forall i :: 0 <= i < |widths| ==> widths[i] >= floors[i])
  }

  /** One more than the other's width on the right of it, the same on its left. */
  function Slack(i: int, j: int): int {
    if j > i then 1 else 0
  }

  /** Max-min fairness: a column above its floor exceeds a shrunk one by at most one, and only to its right. */
  ghost predicate FairAboveFloors(widths: seq<int>, naturals: seq<int>, floors: seq<int>)
    requires |widths| == |naturals| == |floors|
  {
    forall i, j :: 0 <= i < |widths| && 0 <= j < |widths| && i != j && widths[i] < naturals[i] && widths[j] > floors[j] ==>
      widths[j] <= widths[i] + Slack(i, j)
  }

  ghost predicate FairBelowFloors(widths: seq<int>, floors: seq<int>)
    requires |widths| == |floors|
  {
    forall i, j :: 0 <= i < |widths| && 0 <= j < |widths| && i != j && widths[i] < floors[i] ==>
      widths[j] <= widths[i] + Slack(i, j)
  }

  ghost predicate Fair(widths: seq<int>, naturals: seq<int>, floors: seq<int>) {
    Bounded(widths, naturals, floors) && FairAboveFloors(widths, naturals, floors) && FairBelowFloors(widths, floors)
  }

  /** The widths for a terminal: nothing shrinks without need; otherwise the table is exactly as wide as the terminal, or empty. */
  ghost predicate Layout(widths: seq<int>, naturals: seq<int>, floors: seq<int>, available: int) {
    var gaps := 2 * (|naturals| - 1);
    Fair(widths, naturals, floors) &&
    if Sum(naturals) + gaps <= available then widths == naturals
    else if gaps <= available then Sum(widths) + gaps == available
    else forall i :: 0 <= i < |widths| ==> widths[i] == 0
  }

  /** The leftmost of the widest columns above their floors. */
  ghost predicate WidestAbove(widths: seq<int>, floors: seq<int>, t: int)
    requires |widths| == |floors|
  {
    0 <= t < |widths| && widths[t] > floors[t]
    && (forall j :: 0 <= j < |widths| && widths[j] > floors[j] ==> widths[j] < widths[t] + (if j < t then 0 else 1))
  }

  ghost predicate Widest(widths: seq<int>, t: int) {
    0 <= t < |widths| && forall j :: 0 <= j < |widths| ==> widths[j] < widths[t] + (if j < t then 0 else 1)
  }

  method LayoutTable(headers: seq<string>, rows: seq<seq<string>>, available: int) returns (widths: seq<int>)
    ensures Layout(widths, Naturals(headers, rows), Floors(headers), available)
    ensures Sum(widths) + Gaps(|widths|) <= available || forall i :: 0 <= i < |widths| ==> widths[i] == 0
  {
    if headers == [] { return []; }
    var floors := Floors(headers);
    ghost var naturals := Naturals(headers, rows);
    widths := Naturals(headers, rows);
    StartsFair(headers, rows);
    var total := Sum(widths) + Gaps(|headers|);
    var empty := false;
    while total > available && !empty
      invariant Fair(widths, naturals, floors)
      invariant total == Sum(widths) + Gaps(|widths|)
      invariant widths == naturals || total >= available
      invariant empty ==> total > available && Sum(widths) == 0
      decreases total - available, !empty
    {
      widths, empty := ShrinkOne(widths, naturals, floors);
      if !empty { total := total - 1; }
    }
    FairIsNonNegative(widths, naturals, floors);
    Concludes(widths, naturals, floors, available);
  }

  /** The column that gives way: the leftmost widest above its floor, or else the leftmost widest. */
  ghost predicate GivesWay(widths: seq<int>, floors: seq<int>, t: int)
    requires |widths| == |floors|
  {
    if AnyAbove(widths, floors) then WidestAbove(widths, floors, t) else Widest(widths, t)
  }

  /** That column narrower by one, or nothing left to narrow. */
  method ShrinkOne(widths: seq<int>, ghost naturals: seq<int>, floors: seq<int>) returns (narrower: seq<int>, empty: bool)
    requires widths != [] && Fair(widths, naturals, floors) && forall i :: 0 <= i < |floors| ==> floors[i] >= 0
    ensures empty ==> narrower == widths && Sum(widths) == 0
    ensures !empty ==> exists t :: GivesWay(widths, floors, t) && narrower == widths[t := widths[t] - 1]
    ensures !empty ==> Fair(narrower, naturals, floors) && |narrower| == |widths| && Sum(narrower) == Sum(widths) - 1
  {
    var target := TargetAboveFloor(widths, floors);
    if target == -1 {
      target := FirstWidest(widths);
      if widths[target] == 0 {
        AllZero(widths, target);
        return widths, true;
      }
      ShrinkBelow(widths, naturals, floors, target);
    } else {
      ShrinkAbove(widths, naturals, floors, target);
    }
    assert GivesWay(widths, floors, target);
    SumAfter(widths, target, widths[target] - 1);
    return widths[target := widths[target] - 1], false;
  }

  lemma FairIsNonNegative(widths: seq<int>, naturals: seq<int>, floors: seq<int>)
    requires Fair(widths, naturals, floors)
    ensures Sum(widths) >= 0 && (Sum(widths) == 0 ==> forall i :: 0 <= i < |widths| ==> widths[i] == 0)
  {
    SumNonNegative(widths);
  }

  lemma Concludes(widths: seq<int>, naturals: seq<int>, floors: seq<int>, available: int)
    requires Fair(widths, naturals, floors) && Sum(widths) >= 0
    requires Sum(widths) == 0 ==> forall i :: 0 <= i < |widths| ==> widths[i] == 0
    requires widths == naturals || Sum(widths) + Gaps(|widths|) >= available
    requires Sum(widths) + Gaps(|widths|) <= available || Sum(widths) == 0
    ensures Layout(widths, naturals, floors, available)
  {
    SumCompares(widths, naturals);
  }

  method TargetAboveFloor(widths: seq<int>, floors: seq<int>) returns (target: int)
    requires |widths| == |floors|
    ensures target == -1 <==> !AnyAbove(widths, floors)
    ensures target != -1 ==> WidestAbove(widths, floors, target)
  {
    target := -1;
    for columnIndex := 0 to |widths|
      invariant -1 <= target < columnIndex
      invariant target == -1 ==> forall j :: 0 <= j < columnIndex ==> widths[j] <= floors[j]
      invariant target != -1 ==> widths[target] > floors[target]
      invariant target != -1 ==> forall j :: 0 <= j < columnIndex && widths[j] > floors[j] ==>
                  widths[j] < widths[target] + (if j < target then 0 else 1)
    {
      if widths[columnIndex] <= floors[columnIndex] { continue; }
      if target == -1 || widths[columnIndex] > widths[target] { target := columnIndex; }
    }
  }

  method FirstWidest(widths: seq<int>) returns (target: int)
    requires widths != []
    ensures Widest(widths, target)
  {
    target := 0;
    for columnIndex := 1 to |widths|
      invariant 0 <= target < columnIndex
      invariant forall j :: 0 <= j < columnIndex ==> widths[j] < widths[target] + (if j < target then 0 else 1)
    {
      if widths[columnIndex] > widths[target] { target := columnIndex; }
    }
  }

  lemma StartsFair(headers: seq<string>, rows: seq<seq<string>>)
    ensures Fair(Naturals(headers, rows), Naturals(headers, rows), Floors(headers))
  {
    forall i | 0 <= i < |headers| ensures Naturals(headers, rows)[i] >= Floors(headers)[i] {
      NaturalHoldsEverything(headers[i], rows, i);
    }
  }

  lemma ShrinkAbove(widths: seq<int>, naturals: seq<int>, floors: seq<int>, t: int)
    requires Fair(widths, naturals, floors) && WidestAbove(widths, floors, t)
    requires forall i :: 0 <= i < |floors| ==> floors[i] >= 0
    ensures Fair(widths[t := widths[t] - 1], naturals, floors)
  {
    var after := widths[t := widths[t] - 1];
    assert AnyAbove(widths, floors);
    assert forall i :: 0 <= i < |widths| ==> after[i] >= floors[i];
  }

  lemma ShrinkBelow(widths: seq<int>, naturals: seq<int>, floors: seq<int>, t: int)
    requires Fair(widths, naturals, floors) && Widest(widths, t) && !AnyAbove(widths, floors) && widths[t] != 0
    ensures Fair(widths[t := widths[t] - 1], naturals, floors)
  {
    var after := widths[t := widths[t] - 1];
    assert widths[t] >= 1;
    forall i | 0 <= i < |widths| ensures after[i] <= floors[i] {
      assert widths[i] <= floors[i];
    }
  }

  lemma AllZero(widths: seq<int>, t: int)
    requires Widest(widths, t) && widths[t] == 0 && forall i :: 0 <= i < |widths| ==> widths[i] >= 0
    ensures (forall i :: 0 <= i < |widths| ==> widths[i] == 0) && Sum(widths) == 0
  {
    ZeroSum(widths);
  }

  lemma {:induction false} ZeroSum(widths: seq<int>)
    requires forall i :: 0 <= i < |widths| ==> widths[i] == 0
    ensures Sum(widths) == 0
  {
    if widths != [] { ZeroSum(widths[1..]); }
  }

  lemma {:induction false} SumNonNegative(widths: seq<int>)
    requires forall i :: 0 <= i < |widths| ==> widths[i] >= 0
    ensures Sum(widths) >= 0
    ensures Sum(widths) == 0 ==> forall i :: 0 <= i < |widths| ==> widths[i] == 0
  {
    if widths != [] { SumNonNegative(widths[1..]); }
  }

  lemma {:induction false} SumAfter(widths: seq<int>, i: int, w: int)
    requires 0 <= i < |widths|
    ensures Sum(widths[i := w]) == Sum(widths) - widths[i] + w
  {
    if i == 0 {
      assert widths[i := w][1..] == widths[1..];
    } else {
      SumAfter(widths[1..], i - 1, w);
      assert widths[i := w][1..] == widths[1..][i - 1 := w];
    }
  }

  lemma {:induction false} SumCompares(a: seq<int>, b: seq<int>)
    requires |a| == |b| && forall i :: 0 <= i < |a| ==> a[i] <= b[i]
    ensures Sum(a) <= Sum(b) && (Sum(a) == Sum(b) ==> a == b)
  {
    if a != [] {
      SumCompares(a[1..], b[1..]);
      assert a == [a[0]] + a[1..] && b == [b[0]] + b[1..];
    }
  }

  lemma NoExchange(w: seq<int>, v: seq<int>, naturals: seq<int>, floors: seq<int>, a: int, b: int)
    requires Fair(w, naturals, floors) && Fair(v, naturals, floors)
    requires 0 <= a < |w| && 0 <= b < |w| && w[a] > v[a]
    ensures v[b] <= w[b]
  {
    if a != b {
      assert w[a] > floors[a] ==> AnyAbove(w, floors);
      assert v[b] > floors[b] ==> AnyAbove(v, floors);
      assert w[b] < naturals[b] && w[a] > floors[a] ==> w[a] <= w[b] + Slack(b, a);
      assert w[b] < floors[b] ==> w[a] <= w[b] + Slack(b, a);
      assert v[a] < naturals[a] && v[b] > floors[b] ==> v[b] <= v[a] + Slack(a, b);
      assert v[a] < floors[a] ==> v[b] <= v[a] + Slack(a, b);
    }
  }

  /** Fairness, the floors and the width of the terminal leave exactly one layout. */
  lemma LayoutIsDetermined(w: seq<int>, v: seq<int>, naturals: seq<int>, floors: seq<int>, available: int)
    requires Layout(w, naturals, floors, available) && Layout(v, naturals, floors, available)
    ensures w == v
  {
    if Sum(naturals) + Gaps(|naturals|) > available && Gaps(|naturals|) <= available {
      assert Sum(w) == Sum(v);
      if a :| 0 <= a < |w| && w[a] > v[a] {
        forall b | 0 <= b < |w| ensures v[b] <= w[b] { NoExchange(w, v, naturals, floors, a, b); }
        SumCompares(v, w);
      } else {
        SumCompares(w, v);
      }
    }
  }

  // ---------------------------------------------------------------------------
  // Cell wrapping
  // ---------------------------------------------------------------------------

  /** What trimStart removes, after control characters were replaced. */
  predicate IsSpace(c: char) {
    c in {' ', '\U{A0}', '\U{1680}', '\U{2028}', '\U{2029}', '\U{202F}', '\U{205F}', '\U{3000}', '\U{FEFF}'}
    || '\U{2000}' <= c <= '\U{200A}'
  }

  predicate Blank(s: string) {
    forall i :: 0 <= i < |s| ==> IsSpace(s[i])
  }

  function Half(width: nat): nat {
    (width + 1) / 2
  }

  /** A line ends at the last space in its second half, or is full when there is none. */
  ghost predicate BreaksAt(text: string, n: nat, width: nat) {
    width < |text| && 0 < n <= width &&
    if text[n] == ' ' && width <= 2 * n
    then forall k :: n < k <= width ==> text[k] != ' '
    else n == width && forall k :: 0 <= k <= width <= 2 * k ==> text[k] != ' '
  }

  /** The text cut into lines with the given blanks between them. */
  ghost predicate Wrapping(text: string, lines: seq<string>, blanks: seq<string>, width: nat)
    decreases |lines|
  {
    if |lines| <= 1 then lines == [text] && blanks == [] && |text| <= width
    else
      |blanks| == |lines| - 1 && Blank(blanks[0]) && |lines[0] + blanks[0]| <= |text| &&
      var rest := text[|lines[0] + blanks[0]|..];
      && text == lines[0] + blanks[0] + rest
      && BreaksAt(text, |lines[0]|, width)
      && (rest != [] ==> !IsSpace(rest[0]))
      && Wrapping(rest, lines[1..], blanks[1..], width)
  }

  method TrimStart(s: string) returns (t: string, ghost blank: string)
    ensures s == blank + t && Blank(blank) && (t != [] ==> !IsSpace(t[0]))
  {
    var i := 0;
    while i < |s| && IsSpace(s[i])
      invariant 0 <= i <= |s| && Blank(s[..i])
    {
      i := i + 1;
    }
    t, blank := s[i..], s[..i];
  }

  /** The last index up to from that holds a space, or -1. */
  method LastSpace(s: string, from: nat) returns (i: int)
    requires from < |s|
    ensures -1 <= i <= from && (i >= 0 ==> s[i] == ' ')
    ensures forall k :: i < k <= from ==> s[k] != ' '
  {
    i := from;
    while i >= 0 && s[i] != ' '
      invariant -1 <= i <= from && forall k :: i < k <= from ==> s[k] != ' '
    {
      i := i - 1;
    }
  }

  /** Every wrapping of the rest completes these lines to a wrapping of the text. */
  ghost predicate Continues(text: string, rest: string, lines: seq<string>, blanks: seq<string>, width: nat) {
    forall ls, bs :: Wrapping(rest, ls, bs, width) ==> Wrapping(text, lines + ls, blanks + bs, width)
  }

  /** The text is what terminalText returned: no control characters. */
  method WrapTableCell(text: string, width: int) returns (lines: seq<string>, ghost blanks: seq<string>)
    ensures width <= 0 ==> lines == [text]
    ensures width > 0 ==> Wrapping(text, lines, blanks, width)
  {
    blanks := [];
    if width <= 0 || |text| <= width { return [text], blanks; }
    lines := [];
    var remaining := text;
    ContinuesAtFirst(text, width);
    while |remaining| > width
      invariant Continues(text, remaining, lines, blanks, width)
      decreases |remaining|
    {
      ghost var before := remaining;
      var line;
      ghost var blank;
      line, remaining, blank := TakeLine(remaining, width);
      ContinuesAfterLine(text, before, line, blank, remaining, lines, blanks, width);
      lines, blanks := lines + [line], blanks + [blank];
    }
    assert Wrapping(remaining, [remaining], [], width);
    assert blanks + [] == blanks;
    lines := lines + [remaining];
  }

  method TakeLine(remaining: string, width: nat) returns (line: string, rest: string, ghost blank: string)
    requires 0 < width < |remaining|
    ensures remaining == line + blank + rest && Blank(blank) && (rest != [] ==> !IsSpace(rest[0]))
    ensures BreaksAt(remaining, |line|, width)
  {
    var whitespace := LastSpace(remaining, width);
    var breakAt := if whitespace >= Half(width) then whitespace else width;
    line := remaining[..breakAt];
    rest, blank := TrimStart(remaining[breakAt..]);
  }

  lemma ContinuesAtFirst(text: string, width: nat)
    ensures Continues(text, text, [], [], width)
  {
    forall ls, bs | Wrapping(text, ls, bs, width) ensures Wrapping(text, [] + ls, [] + bs, width) {
      assert [] + ls == ls && [] + bs == bs;
    }
  }

  lemma ContinuesAfterLine(text: string, before: string, line: string, blank: string, rest: string,
                           lines: seq<string>, blanks: seq<string>, width: nat)
    requires Continues(text, before, lines, blanks, width)
    requires before == line + blank + rest && Blank(blank) && BreaksAt(before, |line|, width)
    requires rest != [] ==> !IsSpace(rest[0])
    ensures Continues(text, rest, lines + [line], blanks + [blank], width)
  {
    forall ls, bs | Wrapping(rest, ls, bs, width)
      ensures Wrapping(text, lines + [line] + ls, blanks + [blank] + bs, width)
    {
      OneMoreLine(before, line, blank, rest, ls, bs, width);
      assert lines + [line] + ls == lines + ([line] + ls) && blanks + [blank] + bs == blanks + ([blank] + bs);
    }
  }

  lemma OneMoreLine(text: string, line: string, blank: string, rest: string, lines: seq<string>, blanks: seq<string>, width: nat)
    requires text == line + blank + rest && Blank(blank) && BreaksAt(text, |line|, width)
    requires rest != [] ==> !IsSpace(rest[0])
    requires Wrapping(rest, lines, blanks, width)
    ensures Wrapping(text, [line] + lines, [blank] + blanks, width)
  {
    assert lines != [];
    assert ([line] + lines)[1..] == lines && ([blank] + blanks)[1..] == blanks;
    assert text[|line + blank|..] == rest;
  }

  lemma {:induction false} LinesFit(text: string, lines: seq<string>, blanks: seq<string>, width: nat)
    requires Wrapping(text, lines, blanks, width)
    ensures forall i :: 0 <= i < |lines| ==> |lines[i]| <= width
    decreases |lines|
  {
    if |lines| > 1 {
      var rest := text[|lines[0] + blanks[0]|..];
      LinesFit(rest, lines[1..], blanks[1..], width);
      forall i | 0 <= i < |lines| ensures |lines[i]| <= width {
        if i > 0 { assert lines[i] == lines[1..][i - 1]; }
      }
    }
  }

  function NonBlank(s: string): string {
    if s == [] then [] else if IsSpace(s[0]) then NonBlank(s[1..]) else [s[0]] + NonBlank(s[1..])
  }

  function Concat(lines: seq<string>): string {
    if lines == [] then [] else lines[0] + Concat(lines[1..])
  }

  lemma {:induction false} NonBlankOfConcat(s: string, t: string)
    ensures NonBlank(s + t) == NonBlank(s) + NonBlank(t)
  {
    if s == [] {
      assert s + t == t;
    } else {
      NonBlankOfConcat(s[1..], t);
      assert (s + t)[0] == s[0] && (s + t)[1..] == s[1..] + t;
      assert [s[0]] + (NonBlank(s[1..]) + NonBlank(t)) == [s[0]] + NonBlank(s[1..]) + NonBlank(t);
    }
  }

  lemma {:induction false} BlankHasNone(s: string)
    requires Blank(s)
    ensures NonBlank(s) == []
  {
    if s != [] { BlankHasNone(s[1..]); }
  }

  /** Wrapping loses only blanks. */
  lemma {:induction false} ContentIsKept(text: string, lines: seq<string>, blanks: seq<string>, width: nat)
    requires Wrapping(text, lines, blanks, width)
    ensures NonBlank(Concat(lines)) == NonBlank(text)
    decreases |lines|
  {
    if |lines| > 1 {
      var rest := text[|lines[0] + blanks[0]|..];
      ContentIsKept(rest, lines[1..], blanks[1..], width);
      NonBlankOfConcat(lines[0], Concat(lines[1..]));
      NonBlankOfConcat(lines[0] + blanks[0], rest);
      NonBlankOfConcat(lines[0], blanks[0]);
      BlankHasNone(blanks[0]);
    } else {
      assert lines[1..] == [] && text + [] == text;
    }
  }

  lemma SameBreak(text: string, m: nat, n: nat, width: nat)
    requires BreaksAt(text, m, width) && BreaksAt(text, n, width)
    ensures m == n
  {}

  function LeadingBlanks(s: string): nat {
    if s == [] || !IsSpace(s[0]) then 0 else 1 + LeadingBlanks(s[1..])
  }

  lemma {:induction false} BlankIsAllLeading(a: string, x: string)
    requires Blank(a) && (x != [] ==> !IsSpace(x[0]))
    ensures LeadingBlanks(a + x) == |a|
  {
    if a == [] {
      assert a + x == x;
    } else {
      BlankIsAllLeading(a[1..], x);
      assert (a + x)[1..] == a[1..] + x;
    }
  }

  lemma SameBlank(a: string, x: string, b: string, y: string)
    requires a + x == b + y && Blank(a) && Blank(b)
    requires (x != [] ==> !IsSpace(x[0])) && (y != [] ==> !IsSpace(y[0]))
    ensures a == b && x == y
  {
    BlankIsAllLeading(a, x);
    BlankIsAllLeading(b, y);
    assert a == (a + x)[..|a|] && b == (b + y)[..|b|] && x == (a + x)[|a|..] && y == (b + y)[|b|..];
  }

  lemma SamePieces(l: string, b: string, r: string, m: string, c: string, s: string)
    requires l + b + r == m + c + s && |l| == |m| && Blank(b) && Blank(c)
    requires (r != [] ==> !IsSpace(r[0])) && (s != [] ==> !IsSpace(s[0]))
    ensures l == m && b == c
  {
    assert l == (l + b + r)[..|l|] && m == (m + c + s)[..|m|];
    assert b + r == (l + b + r)[|l|..] && c + s == (m + c + s)[|m|..];
    SameBlank(b, r, c, s);
  }

  lemma FirstLineIsDetermined(text: string, ls: seq<string>, bs: seq<string>, ms: seq<string>, cs: seq<string>, width: nat)
    requires Wrapping(text, ls, bs, width) && Wrapping(text, ms, cs, width) && |text| > width
    ensures |ls| > 1 && |ms| > 1 && ls[0] == ms[0] && bs[0] == cs[0]
  {
    SameBreak(text, |ls[0]|, |ms[0]|, width);
    SamePieces(ls[0], bs[0], text[|ls[0] + bs[0]|..], ms[0], cs[0], text[|ms[0] + cs[0]|..]);
  }

  /** There is only one way to wrap a text. */
  lemma {:induction false} WrappingIsDetermined(text: string, ls: seq<string>, bs: seq<string>, ms: seq<string>, cs: seq<string>, width: nat)
    requires Wrapping(text, ls, bs, width) && Wrapping(text, ms, cs, width)
    ensures ls == ms && bs == cs
    decreases |ls|
  {
    if |ls| > 1 {
      FirstLineIsDetermined(text, ls, bs, ms, cs, width);
      WrappingIsDetermined(text[|ls[0] + bs[0]|..], ls[1..], bs[1..], ms[1..], cs[1..], width);
      assert ls == [ls[0]] + ls[1..] && ms == [ms[0]] + ms[1..] && bs == [bs[0]] + bs[1..] && cs == [cs[0]] + cs[1..];
    }
  }
}
