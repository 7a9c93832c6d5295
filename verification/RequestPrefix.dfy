/**
 Request prefixes of packages/sdk/src/resource-registry.ts on parsed URLs. Where the source throws,
 the functions return None; a value that is no absolute URL is None from the start.
 */
module RequestPrefix {
  import opened Commons
  import opened Text

  /** A URL as the URL class splits it; the path of an https URL starts with a slash. */
  datatype Url = Url(https: bool, credentials: bool, origin: string, path: string, search: string, hash: string) {
    ghost predicate Valid() {
      https ==> path != [] && path[0] == '/'
    }
  }

  function ParseHttpsUrl(value: Option<Url>): Option<Url> {
    if value.None? || !value.value.https || value.value.credentials then None else value
  }

  function StripSlashes(path: string): string {
    if path != [] && path[|path| - 1] == '/' then StripSlashes(path[..|path| - 1]) else path
  }

  function NormalizeRequestPrefix(value: Option<Url>): Option<Url> {
    var url := ParseHttpsUrl(value);
    if url.None? then None
    else if url.value.search != "" || url.value.hash != "" || '%' in url.value.path then None
    else if |url.value.path| > 1 then
      var stripped := StripSlashes(url.value.path);
      Some(url.value.(path := if stripped == "" then "/" else stripped))
    else url
  }

  function NormalizeRequestTarget(value: Option<Url>): Option<Url> {
    var url := ParseHttpsUrl(value);
    if url.None? || url.value.hash != "" || '%' in url.value.path then None else url
  }

  function RequestPrefixAccepts(prefixValue: Option<Url>, targetValue: Option<Url>): Option<bool> {
    var prefix := NormalizeRequestPrefix(prefixValue);
    var target := NormalizeRequestTarget(targetValue);
    if prefix.None? || target.None? then None
    else if prefix.value.origin != target.value.origin then Some(false)
    else Some(prefix.value.path == "/" || target.value.path == prefix.value.path || prefix.value.path + "/" <= target.value.path)
  }

  function RequestPrefixesOverlap(leftValue: Option<Url>, rightValue: Option<Url>): Option<bool> {
    var left := NormalizeRequestPrefix(leftValue);
    var right := NormalizeRequestPrefix(rightValue);
    if left.None? || right.None? then None
    else
      var forward := RequestPrefixAccepts(left, right);
      if forward != Some(false) then forward else RequestPrefixAccepts(right, left)
  }

  /** Array.prototype.some: stops at the first prefix that accepts or throws. */
  function AnyAccepts(prefixes: seq<Option<Url>>, target: Option<Url>): Option<bool> {
    if prefixes == [] then Some(false)
    else
      var first := RequestPrefixAccepts(prefixes[0], target);
      if first == Some(false) then AnyAccepts(prefixes[1..], target) else first
  }

  /** The positions of the resources that answer for a target. */
  function ResolveFrom(resources: seq<seq<Option<Url>>>, target: Option<Url>, i: nat): Option<seq<nat>>
    requires i <= |resources|
    decreases |resources| - i
  {
    if i == |resources| then Some([])
    else
      var accepts := AnyAccepts(resources[i], target);
      var rest := ResolveFrom(resources, target, i + 1);
      if accepts.None? || rest.None? then None
      else Some(if accepts.value then [i] + rest.value else rest.value)
  }

  function ResolveResourceForTarget(resources: seq<seq<Option<Url>>>, target: Option<Url>): Option<seq<nat>> {
    ResolveFrom(resources, target, 0)
  }

  // ---------------------------------------------------------------------------
  // Normalisation
  // ---------------------------------------------------------------------------

  lemma {:induction false} StripSlashesIsShortest(path: string)
    ensures StripSlashes(path) <= path
    ensures StripSlashes(path) == "" || StripSlashes(path)[|StripSlashes(path)| - 1] != '/'
    ensures forall i :: |StripSlashes(path)| <= i < |path| ==> path[i] == '/'
  {
    if path != [] && path[|path| - 1] == '/' {
      StripSlashesIsShortest(path[..|path| - 1]);
    }
  }

  /** An https URL without credentials, query, fragment or percent encoding in its path. */
  ghost predicate IsPrefix(value: Option<Url>) {
    IsTarget(value) && value.value.search == ""
  }

  /** An https URL without credentials, fragment or percent encoding in its path. */
  ghost predicate IsTarget(value: Option<Url>) {
    value.Some? && value.value.https && !value.value.credentials && value.value.hash == "" && '%' !in value.value.path
  }

  ghost predicate ValidPrefix(value: Option<Url>) {
    IsPrefix(value) && value.value.Valid()
  }

  ghost predicate ValidTarget(value: Option<Url>) {
    IsTarget(value) && value.value.Valid()
  }

  lemma NormalFormIsAPrefix(value: Option<Url>)
    requires IsPrefix(value)
    ensures NormalizeRequestPrefix(value).Some? && IsPrefix(NormalizeRequestPrefix(value))
  {
    StripSlashesIsShortest(value.value.path);
  }

  /** Exactly what is no prefix or no target is refused, whatever it is asked for. */
  lemma RefusedExactly(left: Option<Url>, right: Option<Url>)
    ensures NormalizeRequestPrefix(left) == None <==> !IsPrefix(left)
    ensures NormalizeRequestTarget(left) == if IsTarget(left) then left else None
    ensures RequestPrefixAccepts(left, right) == None <==> !IsPrefix(left) || !IsTarget(right)
    ensures RequestPrefixesOverlap(left, right) == None <==> !IsPrefix(left) || !IsPrefix(right)
  {
    if IsPrefix(left) { NormalFormIsAPrefix(left); }
    if IsPrefix(right) { NormalFormIsAPrefix(right); }
    if IsPrefix(left) && IsPrefix(right) {
      NormalFormIsAPrefix(NormalizeRequestPrefix(left));
      NormalFormIsAPrefix(NormalizeRequestPrefix(right));
    }
  }

  /** A resource refuses a target exactly if a prefix is reached that does: one before it that accepts hides it. */
  lemma {:induction false} AnyRefusesExactly(prefixes: seq<Option<Url>>, target: Option<Url>)
    ensures AnyAccepts(prefixes, target) == None <==>
              exists i :: 0 <= i < |prefixes| && RequestPrefixAccepts(prefixes[i], target) == None
                          && forall j :: 0 <= j < i ==> RequestPrefixAccepts(prefixes[j], target) == Some(false)
  {
    if prefixes != [] {
      var first, rest := RequestPrefixAccepts(prefixes[0], target), prefixes[1..];
      AnyRefusesExactly(rest, target);
      if AnyAccepts(prefixes, target) == None && first == Some(false) {
        var i :| 0 <= i < |rest| && RequestPrefixAccepts(rest[i], target) == None
                 && forall j :: 0 <= j < i ==> RequestPrefixAccepts(rest[j], target) == Some(false);
        assert prefixes[i + 1] == rest[i];
        forall j | 0 <= j < i + 1 ensures RequestPrefixAccepts(prefixes[j], target) == Some(false) {
          assert j > 0 ==> prefixes[j] == rest[j - 1];
        }
      }
      if i :| 0 <= i < |prefixes| && RequestPrefixAccepts(prefixes[i], target) == None
              && forall j :: 0 <= j < i ==> RequestPrefixAccepts(prefixes[j], target) == Some(false) {
        if i > 0 {
          assert rest[i - 1] == prefixes[i];
          forall j | 0 <= j < i - 1 ensures RequestPrefixAccepts(rest[j], target) == Some(false) {
            assert rest[j] == prefixes[j + 1];
          }
        }
      }
    }
  }

  /** A registry refuses a target exactly if one of its resources does. */
  lemma {:induction false} RegistryRefusesExactly(resources: seq<seq<Option<Url>>>, target: Option<Url>, i: nat)
    requires i <= |resources|
    ensures ResolveFrom(resources, target, i) == None <==> exists k :: i <= k < |resources| && AnyAccepts(resources[k], target) == None
    decreases |resources| - i
  {
    if i < |resources| { RegistryRefusesExactly(resources, target, i + 1); }
  }

  lemma PrefixShape(value: Option<Url>)
    requires ValidPrefix(value)
    ensures var p := NormalizeRequestPrefix(value).value;
            && p.https && !p.credentials && p.search == p.hash == "" && '%' !in p.path
            && p.path != [] && p.path[0] == '/' && (p.path == "/" || p.path[|p.path| - 1] != '/')
            && p.origin == value.value.origin
  {
    var path := value.value.path;
    StripSlashesIsShortest(path);
    if |path| > 1 && StripSlashes(path) != "" {
      assert StripSlashes(path)[0] == path[0];
    } else if |path| == 1 {
      assert path == "/";
    }
  }

  /** The normal form lacks the slashes at the end of the path, all but that of the root, and nothing else. */
  lemma NormalFormExactly(value: Option<Url>)
    requires ValidPrefix(value)
    ensures var p, path := NormalizeRequestPrefix(value).value, value.value.path;
            && p == value.value.(path := p.path)
            && p.path <= path && (forall i :: |p.path| <= i < |path| ==> path[i] == '/')
            && (p.path == "/" || p.path[|p.path| - 1] != '/')
  {
    var path := value.value.path;
    PrefixShape(value);
    StripSlashesIsShortest(path);
    if |path| > 1 && StripSlashes(path) == "" { assert path[..1] == "/"; }
  }

  /** A normalised prefix is its own normal form, and accepts what the prefix as written accepts. */
  lemma NormalisationKeepsAcceptance(value: Option<Url>, target: Option<Url>)
    requires ValidPrefix(value)
    ensures NormalizeRequestPrefix(NormalizeRequestPrefix(value)) == NormalizeRequestPrefix(value)
    ensures RequestPrefixAccepts(NormalizeRequestPrefix(value), target) == RequestPrefixAccepts(value, target)
  {
    PrefixShape(value);
  }

  /** Slashes at the end of a prefix make no difference to what it accepts. */
  lemma TrailingSlashesDoNotMatter(value: Option<Url>, target: Option<Url>)
    requires ValidPrefix(value)
    ensures RequestPrefixAccepts(Some(value.value.(path := value.value.path + "/")), target) == RequestPrefixAccepts(value, target)
  {
    var path := value.value.path;
    assert (path + "/")[..|path + "/"| - 1] == path;
    assert StripSlashes(path + "/") == StripSlashes(path);
    if |path| == 1 {
      assert path == "/" && path[..0] == "";
      assert StripSlashes(path) == StripSlashes(path[..0]);
    }
  }

  // ---------------------------------------------------------------------------
  // Overlap is a common request
  // ---------------------------------------------------------------------------

  ghost predicate Covers(prefix: string, path: string) {
    prefix == "/" || path == prefix || prefix + "/" <= path
  }

  /** A prefix covers the paths that begin with its segments, whole segments at a time; "/" covers all. */
  lemma CoversWholeSegments(prefix: string, path: string)
    ensures Covers(prefix, path) <==> prefix == "/" || Split(prefix, '/') <= Split(path, '/')
  {
    if prefix + "/" <= path {
      var rest := path[|prefix| + 1..];
      assert path == prefix + ['/'] + rest;
      SplitOfConcat(prefix, rest, '/');
    }
    if Split(prefix, '/') <= Split(path, '/') {
      BeginsWithSegments(prefix, path);
    }
  }

  lemma BeginsWithSegments(prefix: string, path: string)
    requires Split(prefix, '/') <= Split(path, '/')
    ensures path == prefix || prefix + "/" <= path
  {
    var xs, all := Split(prefix, '/'), Split(path, '/');
    var ys := all[|xs|..];
    assert all == xs + ys;
    JoinSplit(prefix, '/');
    JoinSplit(path, '/');
    if ys == [] {
      assert all == xs;
    } else {
      JoinOfConcat(xs, ys, '/');
    }
  }

  /** A prefix accepts the targets of its origin whose path begins with its segments. */
  lemma AcceptsWholeSegments(prefix: Option<Url>, target: Option<Url>)
    requires ValidPrefix(prefix) && ValidTarget(target)
    ensures var path := NormalizeRequestPrefix(prefix).value.path;
            RequestPrefixAccepts(prefix, target)
              == Some(prefix.value.origin == target.value.origin
                      && (path == "/" || Split(path, '/') <= Split(target.value.path, '/')))
  {
    AcceptsMeansCovers(prefix, target);
    CoversWholeSegments(NormalizeRequestPrefix(prefix).value.path, target.value.path);
  }

  lemma TwoPrefixesOfOnePath(p: string, q: string, path: string)
    requires p != "/" && q != "/" && Covers(p, path) && Covers(q, path) && |p| <= |q|
    ensures Covers(p, q)
  {
    var whole := if path == q then path + "/" else path;
    assert q <= path && p <= path;
    assert p == path[..|p|] == q[..|p|];
    if |p| < |q| {
      assert (p + "/")[|p|] == '/';
      assert p + "/" <= path;
      assert path[|p|] == '/' == q[|p|];
      assert q == q[..|p|] + [q[|p|]] + q[|p| + 1..];
    } else {
      assert p == q;
    }
  }

  lemma AcceptsMeansCovers(prefix: Option<Url>, target: Option<Url>)
    requires ValidPrefix(prefix) && ValidTarget(target)
    ensures RequestPrefixAccepts(prefix, target)
         == Some(prefix.value.origin == target.value.origin && Covers(NormalizeRequestPrefix(prefix).value.path, target.value.path))
  {
    PrefixShape(prefix);
  }

  lemma NormalPrefixIsATarget(prefix: Option<Url>)
    requires ValidPrefix(prefix)
    ensures ValidPrefix(NormalizeRequestPrefix(prefix)) && ValidTarget(NormalizeRequestPrefix(prefix))
  {
    PrefixShape(prefix);
    NormalisationKeepsAcceptance(prefix, prefix);
  }

  ghost predicate BothAccept(left: Option<Url>, right: Option<Url>, target: Option<Url>) {
    ValidTarget(target) && RequestPrefixAccepts(left, target) == RequestPrefixAccepts(right, target) == Some(true)
  }

  /** Two prefixes overlap exactly when some request is accepted by both. */
  lemma OverlapIsACommonTarget(left: Option<Url>, right: Option<Url>)
    requires ValidPrefix(left) && ValidPrefix(right)
    ensures RequestPrefixesOverlap(left, right) == Some(exists target :: BothAccept(left, right, target))
  {
    var l, r := NormalizeRequestPrefix(left), NormalizeRequestPrefix(right);
    NormalPrefixIsATarget(left);
    NormalPrefixIsATarget(right);
    NormalisationKeepsAcceptance(left, r);
    NormalisationKeepsAcceptance(right, l);
    AcceptsMeansCovers(left, r);
    AcceptsMeansCovers(right, l);
    AcceptsMeansCovers(left, l);
    AcceptsMeansCovers(right, r);
    PrefixShape(left);
    PrefixShape(right);
    if RequestPrefixAccepts(left, r) == Some(true) { assert BothAccept(left, right, r); }
    if RequestPrefixAccepts(right, l) == Some(true) { assert BothAccept(left, right, l); }
    forall target | BothAccept(left, right, target) ensures RequestPrefixesOverlap(left, right) == Some(true) {
      AcceptsMeansCovers(left, target);
      AcceptsMeansCovers(right, target);
      CommonTargetOverlaps(l.value.path, r.value.path, target.value.path);
    }
  }

  lemma CommonTargetOverlaps(p: string, q: string, path: string)
    requires Covers(p, path) && Covers(q, path)
    ensures Covers(p, q) || Covers(q, p)
  {
    if p != "/" && q != "/" {
      if |p| <= |q| { TwoPrefixesOfOnePath(p, q, path); } else { TwoPrefixesOfOnePath(q, p, path); }
    }
  }

  // ---------------------------------------------------------------------------
  // One resource for every target
  // ---------------------------------------------------------------------------

  ghost predicate ValidRegistry(resources: seq<seq<Option<Url>>>) {
    forall i, p :: 0 <= i < |resources| && p in resources[i] ==> ValidPrefix(p)
  }

  ghost predicate Overlapping(resources: seq<seq<Option<Url>>>, i: int, j: int) {
    0 <= i < j < |resources| &&
    exists p, q :: p in resources[i] && q in resources[j] && RequestPrefixesOverlap(p, q) == Some(true)
  }

  ghost predicate Ambiguous(resources: seq<seq<Option<Url>>>, target: Option<Url>) {
    ValidTarget(target) && ResolveResourceForTarget(resources, target).Some?
    && |ResolveResourceForTarget(resources, target).value| > 1
  }

  lemma {:induction false} AnyAcceptsMeansOne(prefixes: seq<Option<Url>>, target: Option<Url>)
    requires ValidTarget(target) && forall p :: p in prefixes ==> ValidPrefix(p)
    ensures AnyAccepts(prefixes, target) == Some(exists p :: p in prefixes && RequestPrefixAccepts(p, target) == Some(true))
  {
    if prefixes != [] {
      assert prefixes[0] in prefixes;
      AcceptsMeansCovers(prefixes[0], target);
      AnyAcceptsMeansOne(prefixes[1..], target);
      assert prefixes == [prefixes[0]] + prefixes[1..];
    }
  }

  lemma {:induction false} ResolvedAreAccepting(resources: seq<seq<Option<Url>>>, target: Option<Url>, i: nat)
    requires ValidRegistry(resources) && ValidTarget(target) && i <= |resources|
    ensures ResolveFrom(resources, target, i).Some?
    ensures var found := ResolveFrom(resources, target, i).value;
            && (forall k :: k in found <==> i <= k < |resources| && AnyAccepts(resources[k], target) == Some(true))
            && (forall a, b :: 0 <= a < b < |found| ==> found[a] < found[b])
    decreases |resources| - i
  {
    if i < |resources| {
      ResolvedAreAccepting(resources, target, i + 1);
      AnyAcceptsMeansOne(resources[i], target);
      var rest := ResolveFrom(resources, target, i + 1).value;
      forall k | 0 <= k < |rest| ensures rest[k] > i {
        assert rest[k] in rest;
      }
    }
  }

  lemma OverlapIsAmbiguous(resources: seq<seq<Option<Url>>>, i: int, j: int) returns (target: Option<Url>)
    requires ValidRegistry(resources) && Overlapping(resources, i, j)
    ensures Ambiguous(resources, target)
  {
    var p, q :| p in resources[i] && q in resources[j] && RequestPrefixesOverlap(p, q) == Some(true);
    OverlapIsACommonTarget(p, q);
    target :| BothAccept(p, q, target);
    AnyAcceptsMeansOne(resources[i], target);
    AnyAcceptsMeansOne(resources[j], target);
    ResolvedAreAccepting(resources, target, 0);
    TwoMembers(ResolveResourceForTarget(resources, target).value, i, j);
  }

  lemma TwoMembers(found: seq<nat>, i: int, j: int)
    requires i in found && j in found && i != j
    ensures |found| > 1
  {}

  lemma AmbiguityIsAnOverlap(resources: seq<seq<Option<Url>>>, target: Option<Url>)
    requires ValidRegistry(resources) && Ambiguous(resources, target)
    ensures exists i, j :: Overlapping(resources, i, j)
  {
    ResolvedAreAccepting(resources, target, 0);
    var found := ResolveResourceForTarget(resources, target).value;
    var i, j := found[0], found[1];
    assert i in found && j in found;
    AnyAcceptsMeansOne(resources[i], target);
    AnyAcceptsMeansOne(resources[j], target);
    var p :| p in resources[i] && RequestPrefixAccepts(p, target) == Some(true);
    var q :| q in resources[j] && RequestPrefixAccepts(q, target) == Some(true);
    assert BothAccept(p, q, target);
    OverlapIsACommonTarget(p, q);
    assert Overlapping(resources, i, j);
  }

  /** A registry answers every target with at most one resource exactly when no two of its resources overlap. */
  lemma OneResourceExactlyWithoutOverlap(resources: seq<seq<Option<Url>>>)
    requires ValidRegistry(resources)
    ensures (forall target :: !Ambiguous(resources, target)) <==> (forall i, j :: !Overlapping(resources, i, j))
  {
    if i, j :| Overlapping(resources, i, j) {
      var target := OverlapIsAmbiguous(resources, i, j);
    } else {
      forall target ensures !Ambiguous(resources, target) {
        if Ambiguous(resources, target) { AmbiguityIsAnOverlap(resources, target); }
      }
    }
  }
}
