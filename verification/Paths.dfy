/**
 Dot segments in the paths of packages/python-sdk/src/weldall/_url.py, against the algorithm of
 section 5.2.4 of RFC 3986.
 */
module Paths {
  import opened Text

  /** A segment with %2e and %2E read as dots. */
  function DecodeDots(segment: string): string {
    if segment == "" then ""
    else if |segment| >= 3 && segment[0] == '%' && segment[1] == '2' && (segment[2] == 'e' || segment[2] == 'E')
    then ['.'] + DecodeDots(segment[3..])
    else [segment[0]] + DecodeDots(segment[1..])
  }

  /** 1 for a single dot, 2 for a double dot, 0 for any other segment. */
  function DotKind(segment: string): int {
    if DecodeDots(segment) == "." then 1 else if DecodeDots(segment) == ".." then 2 else 0
  }

  /** The segments kept after a double dot: the empty one before the first slash stays. */
  function Popped(absolute: bool, output: seq<string>): seq<string> {
    if output != [] && !(absolute && |output| == 1 && output[0] == "") then output[..|output| - 1] else output
  }

  /** The output after one segment. */
  function After(absolute: bool, output: seq<string>, segment: string, last: bool): seq<string> {
    if DotKind(segment) == 0 then output + [segment]
    else (if DotKind(segment) == 2 then Popped(absolute, output) else output) + (if last then [""] else [])
  }

  function Shortened(absolute: bool, output: seq<string>, segments: seq<string>): seq<string>
    decreases |segments|
  {
    if segments == [] then output
    else Shortened(absolute, After(absolute, output, segments[0], |segments| == 1), segments[1..])
  }

  function Assembled(absolute: bool, output: seq<string>): string {
    var result := if output == [] then "" else Join(output, '/');
    var rooted := if absolute && (result == "" || result[0] != '/') then "/" + result else result;
    if rooted == "" && absolute then "/" else rooted
  }

  function Absolute(path: string): bool {
    path != "" && path[0] == '/'
  }

  function Normalized(path: string): string {
    if path == "" then "/" else Assembled(Absolute(path), Shortened(Absolute(path), [], Split(path, '/')))
  }

  method NormalizedPath(path: string) returns (result: string)
    ensures result == Normalized(path)
  {
    if path == "" { return "/"; }
    var absolute := path[0] == '/';
    var segments := Split(path, '/');
    var output: seq<string> := [];
    var index := 0;
    while index < |segments|
      invariant 0 <= index <= |segments|
      invariant Shortened(absolute, output, segments[index..]) == Shortened(absolute, [], segments)
    {
      var segment := segments[index];
      var kind := DotKind(segment);
      var last := index == |segments| - 1;
      assert segments[index..][0] == segment && segments[index..][1..] == segments[index + 1..];
      index := index + 1;
      if kind == 1 {
        if last { output := output + [""]; } else { assert output + [] == output; }
        continue;
      }
      if kind == 2 {
        if output != [] && !(absolute && |output| == 1 && output[0] == "") { output := output[..|output| - 1]; }
        if last { output := output + [""]; } else { assert output + [] == output; }
        continue;
      }
      output := output + [segment];
    }
    result := if output == [] then "" else Join(output, '/');
    if absolute && (result == "" || result[0] != '/') { result := "/" + result; }
    if result == "" && absolute { result := "/"; }
  }

  // ---------------------------------------------------------------------------
  // Absolute paths: what is left after the first slash
  // ---------------------------------------------------------------------------

  /** A slash before every segment. */
  function Slashed(segments: seq<string>): string {
    if segments == [] then "" else ['/'] + segments[0] + Slashed(segments[1..])
  }

  function Front(kept: seq<string>): seq<string> {
    if kept == [] then [] else kept[..|kept| - 1]
  }

  /** Shortening without the empty segment before the first slash. */
  function Kept(kept: seq<string>, segments: seq<string>): seq<string>
    decreases |segments|
  {
    if segments == [] then kept
    else
      var end := if |segments| == 1 then [""] else [];
      Kept(match DotKind(segments[0])
           case 0 => kept + [segments[0]]
           case 1 => kept + end
           case _ => Front(kept) + end,
           segments[1..])
  }

  lemma DotKinds(segment: string)
    ensures DotKind(segment) == 0 || DotKind(segment) == 1 || DotKind(segment) == 2
    ensures DotKind("") == 0
  {}

  lemma {:induction false} RootStays(kept: seq<string>, segments: seq<string>)
    ensures Shortened(true, [""] + kept, segments) == [""] + Kept(kept, segments)
    decreases |segments|
  {
    if segments != [] {
      var s, last := segments[0], |segments| == 1;
      var next := if DotKind(s) == 0 then kept + [s]
                  else (if DotKind(s) == 2 then Front(kept) else kept) + (if last then [""] else []);
      RootPops(kept);
      assert After(true, [""] + kept, s, last) == [""] + next;
      RootStays(next, segments[1..]);
    }
  }

  lemma RootPops(kept: seq<string>)
    ensures Popped(true, [""] + kept) == [""] + Front(kept)
  {
    if kept != [] {
      assert ([""] + kept)[..|kept|] == [""] + kept[..|kept| - 1];
    }
  }

  lemma {:induction false} KeptIsNotEmpty(kept: seq<string>, segments: seq<string>)
    requires segments != [] || kept != []
    ensures Kept(kept, segments) != []
    decreases |segments|
  {
    if |segments| == 1 {
      DotKinds(segments[0]);
    } else if segments != [] {
      DotKinds(segments[0]);
      KeptIsNotEmpty(if DotKind(segments[0]) == 0 then kept + [segments[0]]
                     else if DotKind(segments[0]) == 1 then kept + [] else Front(kept) + [], segments[1..]);
    }
  }

  lemma {:induction false} JoinIsSlashed(segments: seq<string>)
    requires segments != []
    ensures Join([""] + segments, '/') == Slashed(segments)
  {
    assert ([""] + segments)[1..] == segments;
    JoinOnto(segments);
  }

  lemma {:induction false} JoinOnto(segments: seq<string>)
    requires segments != []
    ensures ['/'] + Join(segments, '/') == Slashed(segments)
  {
    if |segments| == 1 {
      assert Slashed(segments) == ['/'] + segments[0] + Slashed([]);
    } else {
      JoinOnto(segments[1..]);
      assert ['/'] + Join(segments, '/') == ['/'] + segments[0] + (['/'] + Join(segments[1..], '/'));
    }
  }

  /** The segments of an absolute path, without the empty one before the first slash. */
  function Segments(path: string): (r: seq<string>)
    requires Absolute(path)
  {
    Split(path, '/')[1..]
  }

  lemma AbsoluteSplits(path: string)
    requires Absolute(path)
    ensures Split(path, '/') == [""] + Segments(path) && Segments(path) == Split(path[1..], '/')
    ensures path == Slashed(Segments(path))
  {
    SplitUnfolds(path, '/');
    assert IndexOf(path, '/') == 0;
    JoinSplit(path[1..], '/');
    JoinOnto(Segments(path));
    assert path == ['/'] + path[1..];
  }

  /** Normalising an absolute path keeps a slash before each of the kept segments. */
  lemma AbsoluteIsKept(path: string)
    requires Absolute(path)
    ensures Normalized(path) == Slashed(Kept([], Segments(path))) && Kept([], Segments(path)) != []
  {
    var segments := Segments(path);
    AbsoluteSplits(path);
    DotKinds("");
    assert After(true, [], "", false) == [""] + [];
    assert Split(path, '/')[1..] == segments;
    RootStays([], segments);
    assert Shortened(true, [], Split(path, '/')) == [""] + Kept([], segments);
    KeptIsNotEmpty([], segments);
    JoinIsSlashed(Kept([], segments));
  }

  ghost predicate NoDots(segments: seq<string>) {
    forall s :: s in segments ==> DotKind(s) == 0 && '/' !in s
  }

  ghost predicate NoSlashes(segments: seq<string>) {
    forall s :: s in segments ==> '/' !in s
  }

  lemma {:induction false} KeptHasNoDots(kept: seq<string>, segments: seq<string>)
    requires NoDots(kept) && NoSlashes(segments)
    ensures NoDots(Kept(kept, segments))
    decreases |segments|
  {
    if segments != [] {
      DotKinds(segments[0]);
      assert segments[0] in segments;
      KeptHasNoDots(match DotKind(segments[0])
                    case 0 => kept + [segments[0]]
                    case 1 => kept + (if |segments| == 1 then [""] else [])
                    case _ => Front(kept) + (if |segments| == 1 then [""] else []), segments[1..]);
    }
  }

  lemma {:induction false} SplitHasNoSlashes(s: string)
    ensures NoSlashes(Split(s, '/'))
    decreases |s|
  {
    if '/' in s {
      var i := IndexOf(s, '/');
      SplitHasNoSlashes(s[i + 1..]);
      forall p | p in Split(s, '/') ensures '/' !in p {
        if p == s[..i] { assert forall k :: 0 <= k < i ==> s[k] != '/'; }
      }
    }
  }

  /** No segment of a normalised absolute path is a dot segment, plain or percent-encoded. */
  lemma NoDotSegmentIsLeft(path: string)
    requires Absolute(path)
    ensures Absolute(Normalized(path)) && NoDots(Segments(Normalized(path)))
    ensures Segments(Normalized(path)) == Kept([], Segments(path))
  {
    var kept := Kept([], Segments(path));
    AbsoluteIsKept(path);
    AbsoluteSplits(path);
    SplitHasNoSlashes(path[1..]);
    KeptHasNoDots([], Segments(path));
    JoinOnto(kept);
    SplitJoin(kept, '/');
    AbsoluteSplits(Normalized(path));
    assert Normalized(path)[1..] == Join(kept, '/');
  }

  lemma {:induction false} PlainSegmentsStay(kept: seq<string>, segments: seq<string>)
    requires NoDots(segments)
    ensures Kept(kept, segments) == kept + segments
    decreases |segments|
  {
    if segments != [] {
      assert segments[0] in segments;
      PlainSegmentsStay(kept + [segments[0]], segments[1..]);
      assert kept + [segments[0]] + segments[1..] == kept + segments;
    }
  }

  lemma NormalisingTwiceIsOnce(path: string)
    requires Absolute(path)
    ensures Normalized(Normalized(path)) == Normalized(path)
  {
    NoDotSegmentIsLeft(path);
    AbsoluteIsKept(path);
    AbsoluteIsKept(Normalized(path));
    PlainSegmentsStay([], Segments(Normalized(path)));
    assert [] + Segments(Normalized(path)) == Segments(Normalized(path));
  }

  // ---------------------------------------------------------------------------
  // Section 5.2.4 of RFC 3986
  // ---------------------------------------------------------------------------

  /** Where the next slash after the first character is, or the end. */
  function SegmentEnd(input: string): (n: nat)
    requires input != ""
    ensures 1 <= n <= |input| && (n < |input| ==> input[n] == '/')
    ensures forall k :: 1 <= k < n ==> input[k] != '/'
  {
    if |input| == 1 || input[1] == '/' then 1 else SegmentEnd(input[1..]) + 1
  }

  /** The output without its last segment and the slash before it, if any. */
  function WithoutLast(output: string): string {
    if output == "" || output[|output| - 1] == '/' then (if output == "" then "" else output[..|output| - 1])
    else WithoutLast(output[..|output| - 1])
  }

  /** remove_dot_segments, its steps in the order the section gives them. */
  function RemoveDotSegments(input: string, output: string): string
    decreases |input|
  {
    if input == "" then output
    else if "../" <= input then RemoveDotSegments(input[3..], output)
    else if "./" <= input then RemoveDotSegments(input[2..], output)
    else if "/./" <= input then RemoveDotSegments(input[2..], output)
    else if input == "/." then RemoveDotSegments("/", output)
    else if "/../" <= input then RemoveDotSegments(input[3..], WithoutLast(output))
    else if input == "/.." then RemoveDotSegments("/", WithoutLast(output))
    else if input == "." || input == ".." then RemoveDotSegments("", output)
    else RemoveDotSegments(input[SegmentEnd(input)..], output + input[..SegmentEnd(input)])
  }

  ghost predicate PlainDots(segments: seq<string>) {
    forall s :: s in segments ==> (DotKind(s) == 1 ==> s == ".") && (DotKind(s) == 2 ==> s == "..")
  }

  lemma {:induction false} SlashedOfConcat(a: seq<string>, b: seq<string>)
    ensures Slashed(a + b) == Slashed(a) + Slashed(b)
  {
    if a == [] {
      assert a + b == b;
    } else {
      SlashedOfConcat(a[1..], b);
      assert (a + b)[1..] == a[1..] + b;
    }
  }

  lemma {:induction false} LastIsRemoved(output: string, segment: string)
    requires '/' !in segment
    ensures WithoutLast(output + (['/'] + segment)) == output
  {
    var s := output + (['/'] + segment);
    if segment == "" {
      assert s[|s| - 1] == '/' && s[..|s| - 1] == output;
    } else {
      var shorter := segment[..|segment| - 1];
      assert s[|s| - 1] == segment[|segment| - 1] && s[|s| - 1] in segment;
      assert s[..|s| - 1] == output + (['/'] + shorter);
      LastIsRemoved(output, shorter);
    }
  }

  lemma FrontIsWithoutLast(kept: seq<string>)
    requires NoSlashes(kept)
    ensures WithoutLast(Slashed(kept)) == Slashed(Front(kept))
  {
    if kept != [] {
      var last := kept[|kept| - 1];
      assert kept == Front(kept) + [last];
      SlashedOfConcat(Front(kept), [last]);
      assert Slashed([last]) == ['/'] + last;
      LastIsRemoved(Slashed(Front(kept)), last);
    }
  }

  /** A slash, a segment, and the end or the next slash. */
  ghost predicate Starts(input: string, segment: string, rest: string) {
    input == ['/'] + segment + rest && '/' !in segment && (rest == "" || rest[0] == '/')
  }

  lemma FirstSegment(input: string, segment: string, rest: string)
    requires Starts(input, segment, rest)
    ensures |input| > |segment|
    ensures forall k :: 1 <= k <= |segment| ==> input[k] == segment[k - 1] && input[k] != '/'
    ensures |input| > |segment| + 1 ==> input[|segment| + 1] == '/'
  {
    forall k | 1 <= k <= |segment| ensures input[k] == segment[k - 1] && input[k] != '/' {
      assert segment[k - 1] in segment;
    }
  }

  lemma SegmentEnds(input: string, segment: string, rest: string)
    requires Starts(input, segment, rest)
    ensures SegmentEnd(input) == |segment| + 1
    ensures input[|segment| + 1..] == rest && input[..|segment| + 1] == ['/'] + segment
  {
    FirstSegment(input, segment, rest);
  }

  /** What follows a segment in a slashed path. */
  lemma SlashedUnfolds(segments: seq<string>)
    requires segments != []
    ensures Slashed(segments) == ['/'] + segments[0] + Slashed(segments[1..])
    ensures |segments| > 1 ==> Slashed(segments[1..]) != "" && Slashed(segments[1..])[0] == '/'
    ensures |segments| == 1 ==> Slashed(segments[1..]) == ""
  {}

  /** The tests of the section, character by character. */
  lemma Prefixes(input: string)
    ensures "/./" <= input <==> |input| >= 3 && input[0] == '/' && input[1] == '.' && input[2] == '/'
    ensures "/../" <= input <==> |input| >= 4 && input[0] == '/' && input[1] == '.' && input[2] == '.' && input[3] == '/'
    ensures input == "/." <==> |input| == 2 && input[0] == '/' && input[1] == '.'
    ensures input == "/.." <==> |input| == 3 && input[0] == '/' && input[1] == '.' && input[2] == '.'
    ensures input != "" && input[0] == '/' ==> !("../" <= input) && !("./" <= input) && input != "." && input != ".."
  {}

  lemma DotsAreDots(segment: string)
    ensures |segment| == 1 && segment[0] == '.' ==> segment == "."
    ensures |segment| == 2 && segment[0] == segment[1] == '.' ==> segment == ".."
    ensures DotKind(".") == 1 && DotKind("..") == 2
  {
    assert DecodeDots(".") == ".";
    assert DecodeDots("..") == "..";
  }

  lemma MovesSegment(input: string, segment: string, rest: string, output: string)
    requires Starts(input, segment, rest) && segment != "." && segment != ".."
    ensures RemoveDotSegments(input, output) == RemoveDotSegments(rest, output + (['/'] + segment))
  {
    SegmentEnds(input, segment, rest);
    FirstSegment(input, segment, rest);
    DotsAreDots(segment);
    Prefixes(input);
  }

  lemma MovesSlash(output: string)
    ensures RemoveDotSegments("/", output) == output + ['/']
  {
    MovesSegment("/", "", "", output);
    assert ['/'] + "" == ['/'];
  }

  lemma DropsDot(input: string, rest: string, output: string)
    requires Starts(input, ".", rest)
    ensures RemoveDotSegments(input, output) == if rest == "" then output + ['/'] else RemoveDotSegments(rest, output)
  {
    FirstSegment(input, ".", rest);
    Prefixes(input);
    MovesSlash(output);
    assert input[2..] == rest;
  }

  lemma DropsDoubleDot(input: string, rest: string, output: string)
    requires Starts(input, "..", rest)
    ensures RemoveDotSegments(input, output)
         == if rest == "" then WithoutLast(output) + ['/'] else RemoveDotSegments(rest, WithoutLast(output))
  {
    FirstSegment(input, "..", rest);
    Prefixes(input);
    MovesSlash(WithoutLast(output));
    assert input[3..] == rest;
  }

  lemma SlashedAppends(kept: seq<string>, segment: string)
    ensures Slashed(kept + [segment]) == Slashed(kept) + (['/'] + segment)
  {
    SlashedOfConcat(kept, [segment]);
    assert Slashed([segment]) == ['/'] + segment;
  }

  lemma {:induction false} RemovalIsShortening(kept: seq<string>, segments: seq<string>)
    requires NoSlashes(kept) && NoSlashes(segments) && PlainDots(segments)
    ensures RemoveDotSegments(Slashed(segments), Slashed(kept)) == Slashed(Kept(kept, segments))
    decreases |segments|
  {
    if segments != [] {
      var s, input, rest := segments[0], Slashed(segments), Slashed(segments[1..]);
      assert s in segments;
      SlashedUnfolds(segments);
      DotKinds(s);
      DotsAreDots(s);
      if DotKind(s) == 0 {
        MovesSegment(input, s, rest, Slashed(kept));
        SlashedAppends(kept, s);
        RemovalIsShortening(kept + [s], segments[1..]);
      } else {
        var left := if DotKind(s) == 1 then kept else Front(kept);
        FrontIsWithoutLast(kept);
        if DotKind(s) == 1 { DropsDot(input, rest, Slashed(kept)); } else { DropsDoubleDot(input, rest, Slashed(kept)); }
        if |segments| == 1 {
          SlashedAppends(left, "");
          assert ['/'] + "" == ['/'];
        } else {
          assert left + [] == left;
          RemovalIsShortening(left, segments[1..]);
        }
      }
    }
  }

  /** A segment with its dots decoded if it is a dot segment, and as it is otherwise. */
  function PlainSegment(segment: string): string {
    if DotKind(segment) == 1 then "." else if DotKind(segment) == 2 then ".." else segment
  }

  function PlainAll(segments: seq<string>): seq<string> {
    if segments == [] then [] else [PlainSegment(segments[0])] + PlainAll(segments[1..])
  }

  lemma {:induction false} PlainAllIsPlain(segments: seq<string>)
    requires NoSlashes(segments)
    ensures NoSlashes(PlainAll(segments)) && PlainDots(PlainAll(segments))
    ensures |PlainAll(segments)| == |segments|
  {
    if segments != [] {
      DotsAreDots("");
      assert segments[0] in segments;
      PlainAllIsPlain(segments[1..]);
    }
  }

  lemma {:induction false} EncodingMakesNoDifference(kept: seq<string>, segments: seq<string>)
    ensures Kept(kept, PlainAll(segments)) == Kept(kept, segments)
    decreases |segments|
  {
    if segments != [] {
      var s, plain := segments[0], PlainAll(segments);
      DotsAreDots("");
      assert DotKind(plain[0]) == DotKind(s) && plain[1..] == PlainAll(segments[1..]);
      SameLength(segments);
      DotKinds(s);
      EncodingMakesNoDifference(match DotKind(s)
                                case 0 => kept + [s]
                                case 1 => kept + (if |segments| == 1 then [""] else [])
                                case _ => Front(kept) + (if |segments| == 1 then [""] else []), segments[1..]);
    }
  }

  lemma {:induction false} SameLength(segments: seq<string>)
    ensures |PlainAll(segments)| == |segments|
  {
    if segments != [] { SameLength(segments[1..]); }
  }

  lemma {:induction false} PlainStays(segments: seq<string>)
    requires PlainDots(segments)
    ensures PlainAll(segments) == segments
  {
    if segments != [] {
      assert segments[0] in segments;
      PlainStays(segments[1..]);
      assert segments == [segments[0]] + segments[1..];
    }
  }

  /** Normalising an absolute path is remove_dot_segments once the encoded dots of dot segments are read as dots. */
  lemma NormalisingIsRemoveDotSegments(path: string)
    requires Absolute(path)
    ensures Normalized(path) == RemoveDotSegments(Slashed(PlainAll(Segments(path))), "")
    ensures PlainDots(Segments(path)) ==> Normalized(path) == RemoveDotSegments(path, "")
  {
    AbsoluteSplits(path);
    AbsoluteIsKept(path);
    SplitHasNoSlashes(path[1..]);
    PlainAllIsPlain(Segments(path));
    EncodingMakesNoDifference([], Segments(path));
    RemovalIsShortening([], PlainAll(Segments(path)));
    if PlainDots(Segments(path)) { PlainStays(Segments(path)); }
  }

  // ---------------------------------------------------------------------------
  // Dot segments, and relative paths
  // ---------------------------------------------------------------------------

  /** A dot as written or percent-encoded, in either case. */
  predicate IsDot(s: string) {
    s == "." || s == "%2e" || s == "%2E"
  }

  /** How many characters the first dot takes, or 0. */
  function FirstDot(s: string): (n: nat)
    ensures n <= |s| && (n > 0 ==> IsDot(s[..n]))
    ensures forall m :: 0 < m <= |s| && IsDot(s[..m]) ==> n == m
  {
    if s != "" && s[0] == '.' then 1
    else if |s| >= 3 && s[0] == '%' && s[1] == '2' && (s[2] == 'e' || s[2] == 'E') then 3 else 0
  }

  lemma DecodesFirst(s: string)
    requires s != ""
    ensures DecodeDots(s) == if FirstDot(s) > 0 then ['.'] + DecodeDots(s[FirstDot(s)..]) else [s[0]] + DecodeDots(s[1..])
    ensures FirstDot(s) == 0 ==> s[0] != '.'
  {}

  lemma DecodesToDot(s: string)
    ensures DecodeDots(s) == "" <==> s == ""
    ensures DecodeDots(s) == "." <==> IsDot(s)
  {
    if s != "" {
      DecodesFirst(s);
      var n := FirstDot(s);
      assert s[..|s|] == s;
      if n > 0 {
        DecodesToNothing(s[n..]);
        assert s == s[..n] + s[n..];
      }
    }
  }

  lemma DecodesToNothing(s: string)
    ensures DecodeDots(s) == "" <==> s == ""
  {
    if s != "" { DecodesFirst(s); }
  }

  lemma TwoDotsDecode(s: string)
    ensures DecodeDots(s) == ".." <==> exists n :: 0 < n < |s| && IsDot(s[..n]) && IsDot(s[n..])
  {
    if s != "" {
      DecodesFirst(s);
      var n := FirstDot(s);
      DecodesToDot(s[n..]);
      if n > 0 {
        assert DecodeDots(s) == ".." <==> DecodeDots(s[n..]) == ".";
        assert IsDot(s[n..]) ==> 0 < n < |s| && IsDot(s[..n]);
      }
    }
  }

  /** The nine spellings of a double dot and the three of a dot are all the dot segments there are. */
  lemma DotSegmentsExactly(segment: string)
    ensures DotKind(segment) == 1 <==> IsDot(segment)
    ensures DotKind(segment) == 2 <==> exists n :: 0 < n < |segment| && IsDot(segment[..n]) && IsDot(segment[n..])
  {
    DecodesToDot(segment);
    TwoDotsDecode(segment);
  }

  lemma {:induction false} RelativeIsKept(kept: seq<string>, segments: seq<string>)
    requires kept == [] || segments != []
    ensures Shortened(false, kept, segments) == Kept(kept, segments)
    decreases |segments|
  {
    if segments != [] {
      DotKinds(segments[0]);
      if |segments| > 1 {
        RelativeIsKept(After(false, kept, segments[0], false), segments[1..]);
      }
    }
  }

  lemma RootedSegments(path: string)
    ensures Absolute("/" + path) && Segments("/" + path) == Split(path, '/')
  {
    AbsoluteSplits("/" + path);
    assert ("/" + path)[1..] == path;
  }

  lemma RootIsNormal()
    ensures Normalized("/") == "/"
  {
    var root := "/";
    NormalisingIsRemoveDotSegments(root);
    AbsoluteSplits(root);
    assert root[1..] == "";
    assert Segments(root) == [""];
    PlainSegmentsStay([], [""]);
    AbsoluteIsKept(root);
  }

  /** A relative path is shortened as it would be under the root, and stays relative to it; the empty path is the root. */
  lemma RelativeIsUnderTheRoot(path: string)
    requires !Absolute(path)
    ensures path != "" ==> "/" + Normalized(path) == Normalized("/" + path)
    ensures path == "" ==> Normalized(path) == "/" == Normalized("/" + path)
  {
    RootIsNormal();
    if path == "" {
      assert "/" + path == "/";
      return;
    }
    var segments := Split(path, '/');
    RootedSegments(path);
    AbsoluteIsKept("/" + path);
    RelativeIsKept([], segments);
    JoinOnto(Kept([], segments));
  }
}
