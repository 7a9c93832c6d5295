/**
 IPv6 text of packages/python-sdk/src/weldall/_url.py: hexadecimal groups with one run of zero groups
 compressed, after section 4.2 of RFC 5952, and its reading after section 2.2 of RFC 4291.
 */
module Ipv6 {
  import opened Commons
  import opened Numerals
  import opened Text

  const GROUPS := 8
  const RADIX := 0x1_0000

  predicate Small(groups: seq<nat>) {
    forall i :: 0 <= i < |groups| ==> groups[i] < RADIX
  }

  /** The sixteen-bit groups of an address, highest first. */
  function GroupsOf(value: nat, n: nat): (groups: seq<nat>)
    ensures |groups| == n && Small(groups)
  {
    if n == 0 then [] else GroupsOf(value / RADIX, n - 1) + [value % RADIX]
  }

  ghost function ValueOfGroups(groups: seq<nat>): nat {
    if groups == [] then 0 else ValueOfGroups(groups[..|groups| - 1]) * RADIX + groups[|groups| - 1]
  }

  function Pieces(groups: seq<nat>): (pieces: seq<string>)
    ensures |pieces| == |groups| && forall i :: 0 <= i < |groups| ==> pieces[i] == Numeral(groups[i], 16)
  {
    seq(|groups|, i requires 0 <= i < |groups| => Numeral(groups[i], 16))
  }

  ghost predicate ZeroRun(groups: seq<nat>, start: int, length: int) {
    0 <= start && 0 < length && start + length <= |groups| && forall k :: start <= k < start + length ==> groups[k] == 0
  }

  /** The leftmost of the longest runs of at least two zero groups, or -1 when there is none. */
  ghost predicate BestRun(groups: seq<nat>, start: int, length: int) {
    if start == -1 then forall s, n :: ZeroRun(groups, s, n) ==> n < 2
    else
      2 <= length && ZeroRun(groups, start, length)
      && forall s, n :: ZeroRun(groups, s, n) ==> n < length || (n == length && start <= s)
  }

  function Colons(pieces: seq<string>): string {
    if pieces == [] then "" else Join(pieces, ':')
  }

  function Compressed(pieces: seq<string>, start: int, length: int): string
    requires start == -1 || (0 <= start && 0 <= length && start + length <= |pieces|)
  {
    if start == -1 then Colons(pieces) else Colons(pieces[..start]) + "::" + Colons(pieces[start + length..])
  }

  /** The text compresses the best run of the groups. */
  ghost predicate Canonical(text: string, groups: seq<nat>) {
    exists start, length ::
      BestRun(groups, start, length) && -1 <= start && start + length <= |groups| && 0 <= length
      && text == Compressed(Pieces(groups), start, length)
  }

  method SerializeIpv6(value: nat) returns (text: string)
    ensures Canonical(text, GroupsOf(value, GROUPS))
  {
    var groups := GroupsOf(value, GROUPS);
    var pieces := Pieces(groups);
    var bestStart, bestLength := FindRun(groups, pieces);
    if bestStart < 0 {
      text := Colons(pieces);
    } else {
      text := Colons(pieces[..bestStart]) + "::" + Colons(pieces[bestStart + bestLength..]);
    }
    assert text == Compressed(Pieces(groups), bestStart, if bestStart < 0 then 0 else bestLength);
  }

  /** Runs that start before the index end by it, and none beats the best so far. */
  ghost predicate BestBefore(groups: seq<nat>, index: int, start: int, length: int) {
    (start == -1 ==> length == 1)
    && (start != -1 ==> 2 <= length && ZeroRun(groups, start, length) && start + length <= index)
    && forall s, n :: ZeroRun(groups, s, n) && s < index ==> s + n <= index && (n < 2 || n < length || (n == length && start <= s))
  }

  method FindRun(ghost groups: seq<nat>, pieces: seq<string>) returns (bestStart: int, bestLength: int)
    requires |pieces| == |groups| && forall i :: 0 <= i < |groups| ==> (pieces[i] == "0" <==> groups[i] == 0)
    ensures BestRun(groups, bestStart, bestLength) && -1 <= bestStart
    ensures bestStart != -1 ==> 2 <= bestLength && bestStart + bestLength <= |pieces|
  {
    bestStart, bestLength := -1, 1;
    var index := 0;
    while index < |pieces|
      invariant 0 <= index <= |pieces| && -1 <= bestStart
      invariant BestBefore(groups, index, bestStart, bestLength)
    {
      if pieces[index] != "0" {
        NonZeroGroup(groups, index, bestStart, bestLength);
        index := index + 1;
        continue;
      }
      var end := index;
      while end < |pieces| && pieces[end] == "0"
        invariant index <= end <= |pieces| && forall k :: index <= k < end ==> groups[k] == 0
      {
        end := end + 1;
      }
      RunEnds(groups, index, end, bestStart, bestLength);
      if end - index > bestLength {
        bestStart, bestLength := index, end - index;
      }
      index := end;
    }
  }

  lemma RunCovers(groups: seq<nat>, start: int, length: int, k: int)
    requires ZeroRun(groups, start, length)
    ensures start <= k < start + length ==> k < |groups| && groups[k] == 0
  {}

  lemma NonZeroGroup(groups: seq<nat>, index: int, start: int, length: int)
    requires 0 <= index < |groups| && groups[index] != 0 && BestBefore(groups, index, start, length)
    ensures BestBefore(groups, index + 1, start, length)
  {
    forall s, n | ZeroRun(groups, s, n) && s <= index ensures s + n <= index {
      RunCovers(groups, s, n, index);
    }
  }

  lemma RunEnds(groups: seq<nat>, index: int, end: int, start: int, length: int)
    requires 0 <= index < end <= |groups| && BestBefore(groups, index, start, length)
    requires (forall k :: index <= k < end ==> groups[k] == 0) && (end < |groups| ==> groups[end] != 0)
    ensures if end - index > length then BestBefore(groups, end, index, end - index) else BestBefore(groups, end, start, length)
  {
    forall s, n | ZeroRun(groups, s, n) && s < end ensures s + n <= end {
      RunCovers(groups, s, n, end);
    }
    assert ZeroRun(groups, index, end - index);
    forall s, n | ZeroRun(groups, s, n) && index <= s < end ensures n <= end - index && (n == end - index ==> s == index) {
      assert s + n <= end;
    }
  }

  lemma BestRunIsDetermined(groups: seq<nat>, s: int, m: int, t: int, n: int)
    requires BestRun(groups, s, m) && BestRun(groups, t, n)
    ensures s == t && (s != -1 ==> m == n)
  {
    assert s != -1 ==> ZeroRun(groups, s, m);
    assert t != -1 ==> ZeroRun(groups, t, n);
  }

  // ---------------------------------------------------------------------------
  // Reading
  // ---------------------------------------------------------------------------

  predicate HasDouble(s: string) {
    exists i :: 0 <= i < |s| - 1 && s[i] == s[i + 1] == ':'
  }

  /** Where the first double colon is. */
  function FirstDouble(s: string): (r: Option<nat>)
    ensures r.Some? ==> r.value + 2 <= |s|
  {
    if |s| < 2 then None
    else if s[0] == s[1] == ':' then Some(0)
    else
      var rest := FirstDouble(s[1..]);
      if rest.None? then None else Some(rest.value + 1)
  }

  predicate Group(piece: string) {
    |piece| <= 4 && DigitsOf(piece, 16)
  }

  function ReadPieces(pieces: seq<string>): Option<seq<nat>> {
    if pieces == [] then Some([])
    else
      var rest := ReadPieces(pieces[1..]);
      if !Group(pieces[0]) || rest.None? then None else Some([ValueOf(pieces[0], 16)] + rest.value)
  }

  function ReadSide(s: string): Option<seq<nat>> {
    if s == "" then Some([]) else ReadPieces(Split(s, ':'))
  }

  function Zeros(n: nat): seq<nat> {
    seq(n, _ => 0)
  }

  /** Eight groups, or fewer around one double colon that stands for the missing zero groups. */
  function ReadGroups(text: string): Option<seq<nat>> {
    var at := FirstDouble(text);
    if at.None? then
      var groups := ReadSide(text);
      if groups.Some? && |groups.value| == GROUPS then groups else None
    else
      var left, right := ReadSide(text[..at.value]), ReadSide(text[at.value + 2..]);
      if left.None? || right.None? || |left.value| + |right.value| >= GROUPS then None
      else Some(left.value + Zeros(GROUPS - |left.value| - |right.value|) + right.value)
  }

  // ---------------------------------------------------------------------------
  // The text is read back as the address
  // ---------------------------------------------------------------------------

  lemma {:induction false} GroupsKeepTheValue(value: nat, n: nat)
    requires value < Radix(n)
    ensures ValueOfGroups(GroupsOf(value, n)) == value
  {
    if n > 0 {
      var groups := GroupsOf(value, n);
      assert groups[..n - 1] == GroupsOf(value / RADIX, n - 1);
      GroupsKeepTheValue(value / RADIX, n - 1);
    }
  }

  function Radix(n: nat): nat {
    if n == 0 then 1 else RADIX * Radix(n - 1)
  }

  lemma {:induction false} ShortNumeral(n: nat, length: nat)
    requires n < Power16(length) && length > 0
    ensures |Numeral(n, 16)| <= length
    decreases length
  {
    if n >= 16 {
      ShortNumeral(n / 16, length - 1);
    }
  }

  function Power16(n: nat): nat {
    if n == 0 then 1 else 16 * Power16(n - 1)
  }

  lemma PieceIsAGroup(g: nat)
    requires g < RADIX
    ensures Group(Numeral(g, 16)) && ValueOf(Numeral(g, 16), 16) == g && ':' !in Numeral(g, 16)
  {
    assert Power16(1) == 16 * Power16(0) && Power16(2) == 16 * Power16(1) && Power16(3) == 16 * Power16(2) && Power16(4) == 16 * Power16(3);
    ShortNumeral(g, 4);
  }

  lemma PiecesTail(groups: seq<nat>)
    requires groups != []
    ensures Pieces(groups)[0] == Numeral(groups[0], 16) && Pieces(groups)[1..] == Pieces(groups[1..])
  {}

  lemma {:induction false} PiecesAreRead(groups: seq<nat>)
    requires Small(groups)
    ensures ReadPieces(Pieces(groups)) == Some(groups)
  {
    if groups != [] {
      PieceIsAGroup(groups[0]);
      PiecesTail(groups);
      PiecesAreRead(groups[1..]);
      assert groups == [groups[0]] + groups[1..];
    }
  }

  lemma SideIsRead(groups: seq<nat>)
    requires Small(groups)
    ensures ReadSide(Colons(Pieces(groups))) == Some(groups)
  {
    if groups != [] {
      forall p | p in Pieces(groups) ensures ':' !in p {
        var i :| 0 <= i < |groups| && Pieces(groups)[i] == p;
        PieceIsAGroup(groups[i]);
      }
      PiecesAreRead(groups);
      SplitJoin(Pieces(groups), ':');
      assert Pieces(groups)[0] != "";
      JoinStarts(Pieces(groups));
    }
  }

  lemma JoinStarts(pieces: seq<string>)
    requires pieces != [] && pieces[0] != ""
    ensures Join(pieces, ':') != "" && Join(pieces, ':')[0] == pieces[0][0]
  {}

  /** No colon at either end, and none beside another. */
  ghost predicate Spaced(s: string) {
    s != "" && s[0] != ':' && s[|s| - 1] != ':' && !HasDouble(s)
  }

  lemma {:induction false} JoinIsSpaced(groups: seq<nat>)
    requires groups != [] && Small(groups)
    ensures Spaced(Colons(Pieces(groups)))
  {
    PieceIsAGroup(groups[0]);
    var first := Numeral(groups[0], 16);
    if |groups| == 1 {
      assert Pieces(groups) == [first];
    } else {
      JoinIsSpaced(groups[1..]);
      PiecesTail(groups);
      SpacedTogether(first, Colons(Pieces(groups[1..])));
    }
  }

  lemma SpacedTogether(first: string, rest: string)
    requires first != "" && ':' !in first && Spaced(rest)
    ensures Spaced(first + [':'] + rest)
  {
    var s := first + [':'] + rest;
    forall i | 0 <= i < |s| - 1 ensures !(s[i] == s[i + 1] == ':') {
      if i < |first| {
        assert s[i] == first[i] && first[i] in first;
      } else if i > |first| {
        assert s[i] == rest[i - |first| - 1] && s[i + 1] == rest[i - |first|];
      }
    }
    assert s[0] == first[0] && first[0] in first;
  }

  lemma {:induction false} NoDouble(s: string)
    requires !HasDouble(s)
    ensures FirstDouble(s) == None
  {
    if |s| >= 2 {
      assert !HasDouble(s[1..]) by {
        forall i | 0 <= i < |s| - 2 ensures !(s[1..][i] == s[1..][i + 1] == ':') {
          assert s[1..][i] == s[i + 1] && s[1..][i + 1] == s[i + 2];
        }
      }
      NoDouble(s[1..]);
    }
  }

  lemma {:induction false} DoubleIsFound(left: string, right: string)
    requires left == "" || (left[|left| - 1] != ':' && !HasDouble(left))
    ensures FirstDouble(left + "::" + right) == Some(|left|)
  {
    var s := left + "::" + right;
    if left != "" {
      var rest := left[1..];
      assert s[1..] == rest + "::" + right;
      if |left| > 1 { assert s[0] == left[0] && s[1] == left[1]; } else { assert s[0] == left[0]; }
      assert !HasDouble(rest) by {
        forall i | 0 <= i < |rest| - 1 ensures !(rest[i] == rest[i + 1] == ':') {
          assert rest[i] == left[i + 1] && rest[i + 1] == left[i + 2];
        }
      }
      DoubleIsFound(rest, right);
    }
  }

  lemma PlainIsReadBack(groups: seq<nat>)
    requires |groups| == GROUPS && Small(groups)
    ensures ReadGroups(Colons(Pieces(groups))) == Some(groups)
  {
    JoinIsSpaced(groups);
    NoDouble(Colons(Pieces(groups)));
    SideIsRead(groups);
  }

  lemma PiecesAround(groups: seq<nat>, start: int, end: int)
    requires 0 <= start <= end <= |groups|
    ensures Pieces(groups)[..start] == Pieces(groups[..start]) && Pieces(groups)[end..] == Pieces(groups[end..])
  {}

  lemma RunSplits(groups: seq<nat>, start: int, length: int)
    requires |groups| == GROUPS && ZeroRun(groups, start, length)
    ensures var left, right := groups[..start], groups[start + length..];
            |left| + |right| < GROUPS && left + Zeros(GROUPS - |left| - |right|) + right == groups
  {
    assert GROUPS - |groups[..start]| - |groups[start + length..]| == length;
  }

  lemma CompressedAround(pieces: seq<string>, start: int, length: int, left: seq<string>, right: seq<string>)
    requires 0 <= start && 0 <= length && start + length <= |pieces|
    requires pieces[..start] == left && pieces[start + length..] == right
    ensures Compressed(pieces, start, length) == Colons(left) + "::" + Colons(right)
  {}

  lemma CompressedIsReadBack(groups: seq<nat>, start: int, length: int)
    requires |groups| == GROUPS && Small(groups) && ZeroRun(groups, start, length)
    ensures ReadGroups(Compressed(Pieces(groups), start, length)) == Some(groups)
  {
    PiecesAround(groups, start, start + length);
    CompressedAround(Pieces(groups), start, length, Pieces(groups[..start]), Pieces(groups[start + length..]));
    RunSplits(groups, start, length);
    SidesAreRead(groups[..start], groups[start + length..]);
  }

  lemma SidesAreRead(left: seq<nat>, right: seq<nat>)
    requires Small(left) && Small(right) && |left| + |right| < GROUPS
    ensures ReadGroups(Colons(Pieces(left)) + "::" + Colons(Pieces(right)))
         == Some(left + Zeros(GROUPS - |left| - |right|) + right)
  {
    if left != [] { JoinIsSpaced(left); }
    SideIsRead(left);
    SideIsRead(right);
    TwoSidesRead(Colons(Pieces(left)), Colons(Pieces(right)), left, right);
  }

  lemma TwoSidesRead(l: string, r: string, left: seq<nat>, right: seq<nat>)
    requires l == "" || (l[|l| - 1] != ':' && !HasDouble(l))
    requires ReadSide(l) == Some(left) && ReadSide(r) == Some(right) && |left| + |right| < GROUPS
    ensures ReadGroups(l + "::" + r) == Some(left + Zeros(GROUPS - |left| - |right|) + right)
  {
    BothSides(l, r);
  }

  lemma BothSides(left: string, right: string)
    requires left == "" || (left[|left| - 1] != ':' && !HasDouble(left))
    ensures FirstDouble(left + "::" + right) == Some(|left|)
    ensures (left + "::" + right)[..|left|] == left && (left + "::" + right)[|left| + 2..] == right
  {
    DoubleIsFound(left, right);
  }

  /** Every 128-bit address has one canonical text, and is read back from it. */
  lemma TextIsReadBack(value: nat, text: string)
    requires value < Radix(GROUPS) && Canonical(text, GroupsOf(value, GROUPS))
    ensures ReadGroups(text) == Some(GroupsOf(value, GROUPS))
    ensures ValueOfGroups(GroupsOf(value, GROUPS)) == value
    ensures forall other :: Canonical(other, GroupsOf(value, GROUPS)) ==> other == text
  {
    var groups := GroupsOf(value, GROUPS);
    var start, length :| BestRun(groups, start, length) && -1 <= start && start + length <= |groups| && 0 <= length
                         && text == Compressed(Pieces(groups), start, length);
    GroupsKeepTheValue(value, GROUPS);
    if start == -1 {
      PlainIsReadBack(groups);
    } else {
      CompressedIsReadBack(groups, start, length);
    }
    forall other | Canonical(other, groups) ensures other == text {
      OneText(groups, text, other);
    }
  }

  lemma OneText(groups: seq<nat>, text: string, other: string)
    requires Canonical(text, groups) && Canonical(other, groups)
    ensures text == other
  {
    var s, m :| BestRun(groups, s, m) && -1 <= s && s + m <= |groups| && 0 <= m && text == Compressed(Pieces(groups), s, m);
    var t, n :| BestRun(groups, t, n) && -1 <= t && t + n <= |groups| && 0 <= n && other == Compressed(Pieces(groups), t, n);
    BestRunIsDetermined(groups, s, m, t, n);
  }
}
