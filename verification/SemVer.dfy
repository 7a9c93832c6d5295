/**
 Version precedence of apps/cli/src/update-check.ts: the comparison of digit strings by
 length and text, and the field-by-field comparison of versions, against section 11 of
 Semantic Versioning 2.0.0 stated on numbers and identifiers.
 */
module SemVer {
  import opened Commons
  import opened Text

  // ---------------------------------------------------------------------------
  // Versions as text
  // ---------------------------------------------------------------------------

  predicate IsDigit(c: char) {
    '0' <= c <= '9'
  }

  predicate IsWordChar(c: char) {
    IsDigit(c) || 'a' <= c <= 'z' || 'A' <= c <= 'Z' || c == '-'
  }

  predicate Digits(s: string) {
    s != [] && forall i :: 0 <= i < |s| ==> IsDigit(s[i])
  }

  /** 0, or digits without a leading zero. */
  predicate Numeric(s: string) {
    Digits(s) && (|s| > 1 ==> s[0] != '0')
  }

  predicate Word(s: string) {
    s != [] && forall i :: 0 <= i < |s| ==> IsWordChar(s[i])
  }

  /** A numeric identifier, or a word with at least one character that is no digit. */
  predicate PreIdentifier(s: string) {
    Word(s) && (Digits(s) ==> Numeric(s))
  }

  /** The text before the first c, and the text after it if there is one. */
  function Cut(s: string, c: char): (string, Option<string>) {
    if c in s then (s[..IndexOf(s, c)], Some(s[IndexOf(s, c) + 1..])) else (s, None)
  }

  /** The version pattern: three numeric fields, pre-release identifiers, build words; the build is dropped. */
  function SemanticVersionParts(version: string): (r: Option<(seq<string>, seq<string>)>)
    ensures r.Some? ==> |r.value.0| == 3 && (forall i :: 0 <= i < 3 ==> Numeric(r.value.0[i]))
                        && (forall p :: p in r.value.1 ==> PreIdentifier(p))
  {
    var (head, build) := Cut(version, '+');
    var (core, pre) := Cut(head, '-');
    var fields := Split(core, '.');
    var identifiers := if pre.Some? then Split(pre.value, '.') else [];
    if |fields| == 3 && (forall i :: 0 <= i < 3 ==> Numeric(fields[i])) && (forall p :: p in identifiers ==> PreIdentifier(p))
       && (build.Some? ==> forall b :: b in Split(build.value, '.') ==> Word(b))
    then Some((fields, identifiers))
    else None
  }

  function CompareNumericIdentifiers(left: string, right: string): int {
    if |left| != |right| then (if |left| > |right| then 1 else -1)
    else if left == right then 0
    else if CompareText(left, right) > 0 then 1 else -1
  }

  method IsNewerVersion(latestVersion: string, currentVersion: string) returns (newer: bool)
    ensures newer <==> Newer(latestVersion, currentVersion)
  {
    var latest := SemanticVersionParts(latestVersion);
    var current := SemanticVersionParts(currentVersion);
    if latest == None || current == None { return false; }
    var l, c := latest.value, current.value;
    var comparison := CompareFields(l.0, c.0);
    if comparison != 0 { return comparison > 0; }
    if |l.1| == 0 || |c.1| == 0 { return |l.1| == 0 && |c.1| > 0; }
    newer := NewerPreRelease(l.1, c.1);
  }

  method CompareFields(latest: seq<string>, current: seq<string>) returns (comparison: int)
    requires |latest| == 3 && forall i :: 0 <= i < |latest| ==> Numeric(latest[i])
    requires |current| == 3 && forall i :: 0 <= i < |current| ==> Numeric(current[i])
    ensures comparison == CompareCore(Values(latest), Values(current))
  {
    var index := 0;
    while index < 3
      invariant 0 <= index <= 3
      invariant CompareCore(Values(latest[index..]), Values(current[index..])) == CompareCore(Values(latest), Values(current))
    {
      NumericOrder(latest[index], current[index]);
      ValuesTail(latest[index..]);
      ValuesTail(current[index..]);
      comparison := CompareNumericIdentifiers(latest[index], current[index]);
      if comparison != 0 { return; }
      assert latest[index..][1..] == latest[index + 1..] && current[index..][1..] == current[index + 1..];
      index := index + 1;
    }
    comparison := 0;
  }

  method NewerPreRelease(latest: seq<string>, current: seq<string>) returns (newer: bool)
    requires forall p :: p in latest + current ==> PreIdentifier(p)
    ensures newer <==> ComparePre(Identifiers(latest), Identifiers(current)) > 0
  {
    var length := if |latest| < |current| then |current| else |latest|;
    var index := 0;
    while index < length
      invariant 0 <= index <= length
      invariant index <= |latest| && index <= |current|
      invariant ComparePre(Identifiers(latest[index..]), Identifiers(current[index..]))
                == ComparePre(Identifiers(latest), Identifiers(current))
    {
      if index == |latest| { return false; }
      if index == |current| { return true; }
      var latestPart, currentPart := latest[index], current[index];
      IdentifiersTail(latest[index..]);
      IdentifiersTail(current[index..]);
      assert latest[index..][1..] == latest[index + 1..] && current[index..][1..] == current[index + 1..];
      assert latestPart in latest + current && currentPart in latest + current;
      IdentifierOrder(latestPart, currentPart);
      if latestPart != currentPart {
        var latestNumeric, currentNumeric := Digits(latestPart), Digits(currentPart);
        if latestNumeric && currentNumeric { return CompareNumericIdentifiers(latestPart, currentPart) > 0; }
        if latestNumeric != currentNumeric { return !latestNumeric; }
        return CompareText(latestPart, currentPart) > 0;
      }
      index := index + 1;
    }
    newer := false;
  }

  // ---------------------------------------------------------------------------
  // Section 11 of Semantic Versioning 2.0.0
  // ---------------------------------------------------------------------------

  datatype Identifier = Number(n: nat) | Alpha(text: string)

  datatype Version = Version(core: seq<nat>, pre: seq<Identifier>)

  function Value(s: string): nat
    requires forall i :: 0 <= i < |s| ==> IsDigit(s[i])
  {
    if s == [] then 0
    else
      assert IsDigit(s[|s| - 1]);
      10 * Value(s[..|s| - 1]) + (s[|s| - 1] as int - '0' as int)
  }

  ghost function Values(fields: seq<string>): seq<nat>
    requires forall i :: 0 <= i < |fields| ==> Numeric(fields[i])
  {
    seq(|fields|, i requires 0 <= i < |fields| => assert Numeric(fields[i]); Value(fields[i]))
  }

  ghost function Meaning(p: string): Identifier
    requires PreIdentifier(p)
  {
    if Digits(p) then Number(Value(p)) else Alpha(p)
  }

  ghost function Identifiers(parts: seq<string>): seq<Identifier>
    requires forall p :: p in parts ==> PreIdentifier(p)
  {
    seq(|parts|, i requires 0 <= i < |parts| => Meaning(parts[i]))
  }

  function CompareNumber(x: int, y: int): int {
    if x < y then -1 else if x == y then 0 else 1
  }

  /** Numbers below words; numbers by value, words by ASCII. */
  function CompareIdentifier(x: Identifier, y: Identifier): int {
    match (x, y)
    case (Number(m), Number(n)) => CompareNumber(m, n)
    case (Number(_), Alpha(_)) => -1
    case (Alpha(_), Number(_)) => 1
    case (Alpha(s), Alpha(t)) => CompareText(s, t)
  }

  /** Field by field; with all fields equal the longer list is the higher. */
  function ComparePre(xs: seq<Identifier>, ys: seq<Identifier>): int {
    if xs == [] || ys == [] then CompareNumber(|xs|, |ys|)
    else if CompareIdentifier(xs[0], ys[0]) != 0 then CompareIdentifier(xs[0], ys[0])
    else ComparePre(xs[1..], ys[1..])
  }

  function CompareCore(xs: seq<nat>, ys: seq<nat>): int
    requires |xs| == |ys|
  {
    if xs == [] then 0
    else if xs[0] != ys[0] then CompareNumber(xs[0], ys[0])
    else CompareCore(xs[1..], ys[1..])
  }

  /** Major, minor and patch first; then a release is above its pre-releases. */
  function Precedence(v: Version, w: Version): int
    requires |v.core| == |w.core|
  {
    if CompareCore(v.core, w.core) != 0 then CompareCore(v.core, w.core)
    else if v.pre == [] || w.pre == [] then CompareNumber(|w.pre|, |v.pre|)
    else ComparePre(v.pre, w.pre)
  }

  ghost function Read(version: string): (v: Option<Version>)
    ensures v.Some? ==> |v.value.core| == 3
  {
    match SemanticVersionParts(version)
    case None => None
    case Some(parts) => Some(Version(Values(parts.0), Identifiers(parts.1)))
  }

  ghost predicate Newer(latest: string, current: string) {
    Read(latest).Some? && Read(current).Some? && Precedence(Read(latest).value, Read(current).value) > 0
  }

  // ---------------------------------------------------------------------------
  // Digit strings compare as numbers
  // ---------------------------------------------------------------------------

  function Power10(n: nat): nat {
    if n == 0 then 1 else 10 * Power10(n - 1)
  }

  lemma {:induction false} ValueBelow(s: string)
    requires forall i :: 0 <= i < |s| ==> IsDigit(s[i])
    ensures Value(s) < Power10(|s|)
  {
    if s != [] {
      ValueBelow(s[..|s| - 1]);
    }
  }

  lemma {:induction false} ValueAbove(s: string)
    requires Digits(s) && s[0] != '0'
    ensures Power10(|s| - 1) <= Value(s)
  {
    if |s| == 1 {
      assert s[..0] == [];
    } else {
      ValueAbove(s[..|s| - 1]);
    }
  }

  lemma {:induction false} ValueOfConcat(s: string, t: string)
    requires forall i :: 0 <= i < |s + t| ==> IsDigit((s + t)[i])
    ensures (forall i :: 0 <= i < |s| ==> IsDigit(s[i])) && (forall i :: 0 <= i < |t| ==> IsDigit(t[i]))
    ensures Value(s + t) == Value(s) * Power10(|t|) + Value(t)
  {
    assert forall i :: 0 <= i < |s| ==> (s + t)[i] == s[i];
    assert forall i :: 0 <= i < |t| ==> (s + t)[|s| + i] == t[i];
    if t == [] {
      assert s + t == s;
    } else {
      var u := t[..|t| - 1];
      assert (s + t)[..|s + t| - 1] == s + u;
      assert forall i :: 0 <= i < |s + u| ==> (s + u)[i] == (s + t)[i];
      ValueOfConcat(s, u);
      Scale(Value(s), Power10(|u|));
    }
  }

  lemma Scale(x: nat, p: nat)
    ensures 10 * (x * p) == x * (10 * p)
  {}

  lemma PowerMonotone(m: nat, n: nat)
    requires m <= n
    ensures Power10(m) <= Power10(n)
    decreases n - m
  {
    if m < n { PowerMonotone(m + 1, n); }
  }

  lemma {:induction false} SameLengthOrder(s: string, t: string)
    requires |s| == |t| && forall i :: 0 <= i < |s| ==> IsDigit(s[i]) && IsDigit(t[i])
    ensures CompareText(s, t) == CompareNumber(Value(s), Value(t))
  {
    if s != [] && s != t {
      FirstDigit(s);
      FirstDigit(t);
      if s[0] == t[0] {
        assert s == [s[0]] + s[1..] && t == [t[0]] + t[1..];
        SameLengthOrder(s[1..], t[1..]);
      } else if s[0] < t[0] {
        LeadingDigitDecides(s, t);
      } else {
        LeadingDigitDecides(t, s);
      }
    }
  }

  lemma FirstDigit(s: string)
    requires s != [] && forall i :: 0 <= i < |s| ==> IsDigit(s[i])
    ensures Value(s) == (s[0] as int - '0' as int) * Power10(|s| - 1) + Value(s[1..])
    ensures Value(s[1..]) < Power10(|s| - 1)
  {
    assert s == [s[0]] + s[1..];
    ValueOfConcat([s[0]], s[1..]);
    OneDigit(s[0]);
    ValueBelow(s[1..]);
  }

  lemma LeadingDigitDecides(s: string, t: string)
    requires |s| == |t| && s != [] && s[0] < t[0]
    requires (forall i :: 0 <= i < |s| ==> IsDigit(s[i])) && (forall i :: 0 <= i < |t| ==> IsDigit(t[i]))
    ensures Value(s) < Value(t)
  {
    FirstDigit(s);
    FirstDigit(t);
    Dominates(s[0] as int - '0' as int, t[0] as int - '0' as int, Power10(|s| - 1));
  }

  lemma OneDigit(c: char)
    requires IsDigit(c)
    ensures Value([c]) == c as int - '0' as int
  {
    assert [c][..0] == [];
  }

  lemma Dominates(x: nat, y: nat, p: nat)
    requires x < y
    ensures x * p + p <= y * p
  {
    assert (x + 1) * p <= y * p;
  }

  /** Comparing digit strings without leading zeros by length, then text, is comparing their values. */
  lemma NumericOrder(s: string, t: string)
    requires Numeric(s) && Numeric(t)
    ensures CompareNumericIdentifiers(s, t) == CompareNumber(Value(s), Value(t))
    ensures CompareNumericIdentifiers(s, t) == 0 <==> s == t
  {
    if |s| == |t| {
      SameLengthOrder(s, t);
      TextOrder(s, t);
    } else if |s| < |t| {
      LongerIsLarger(s, t);
    } else {
      LongerIsLarger(t, s);
    }
  }

  lemma LongerIsLarger(s: string, t: string)
    requires Numeric(s) && Numeric(t) && |s| < |t|
    ensures Value(s) < Value(t)
  {
    ValueBelow(s);
    ValueAbove(t);
    PowerMonotone(|s|, |t| - 1);
  }

  lemma IdentifierOrder(x: string, y: string)
    requires PreIdentifier(x) && PreIdentifier(y)
    ensures CompareIdentifier(Meaning(x), Meaning(y)) == 0 <==> x == y
    ensures Digits(x) && Digits(y) ==> CompareIdentifier(Meaning(x), Meaning(y)) == CompareNumericIdentifiers(x, y)
  {
    if Digits(x) && Digits(y) {
      NumericOrder(x, y);
    } else {
      TextOrder(x, y);
    }
  }

  lemma ValuesTail(fields: seq<string>)
    requires fields != [] && forall i :: 0 <= i < |fields| ==> Numeric(fields[i])
    ensures Values(fields)[0] == Value(fields[0]) && Values(fields)[1..] == Values(fields[1..])
  {}

  lemma IdentifiersTail(parts: seq<string>)
    requires parts != [] && forall p :: p in parts ==> PreIdentifier(p)
    ensures Identifiers(parts)[0] == Meaning(parts[0]) && Identifiers(parts)[1..] == Identifiers(parts[1..])
  {}

  // ---------------------------------------------------------------------------
  // A strict total order
  // ---------------------------------------------------------------------------

  lemma IdentifierTotal(x: Identifier, y: Identifier, z: Identifier)
    ensures CompareIdentifier(x, y) == 0 <==> x == y
    ensures CompareIdentifier(x, y) == -CompareIdentifier(y, x)
    ensures CompareIdentifier(x, y) < 0 && CompareIdentifier(y, z) < 0 ==> CompareIdentifier(x, z) < 0
  {
    if x.Alpha? && y.Alpha? {
      TextOrder(x.text, y.text);
      if z.Alpha? && CompareText(x.text, y.text) < 0 && CompareText(y.text, z.text) < 0 {
        TextTransitive(x.text, y.text, z.text);
      }
    }
  }

  lemma {:induction false} PreTotal(xs: seq<Identifier>, ys: seq<Identifier>)
    ensures ComparePre(xs, ys) == 0 <==> xs == ys
    ensures ComparePre(xs, ys) == -ComparePre(ys, xs)
  {
    if xs != [] && ys != [] {
      IdentifierTotal(xs[0], ys[0], xs[0]);
      PreTotal(xs[1..], ys[1..]);
      assert xs == [xs[0]] + xs[1..] && ys == [ys[0]] + ys[1..];
    }
  }

  lemma {:induction false} PreTransitive(xs: seq<Identifier>, ys: seq<Identifier>, zs: seq<Identifier>)
    requires ComparePre(xs, ys) < 0 && ComparePre(ys, zs) < 0
    ensures ComparePre(xs, zs) < 0
  {
    if xs != [] && ys != [] && zs != [] {
      IdentifierTotal(xs[0], ys[0], zs[0]);
      IdentifierTotal(ys[0], zs[0], xs[0]);
      IdentifierTotal(xs[0], zs[0], ys[0]);
      if xs[0] == ys[0] && ys[0] == zs[0] {
        PreTransitive(xs[1..], ys[1..], zs[1..]);
      }
    }
  }

  lemma {:induction false} CoreTotal(xs: seq<nat>, ys: seq<nat>)
    requires |xs| == |ys|
    ensures CompareCore(xs, ys) == 0 <==> xs == ys
    ensures CompareCore(xs, ys) == -CompareCore(ys, xs)
  {
    if xs != [] {
      CoreTotal(xs[1..], ys[1..]);
      assert xs == [xs[0]] + xs[1..] && ys == [ys[0]] + ys[1..];
    }
  }

  lemma {:induction false} CoreTransitive(xs: seq<nat>, ys: seq<nat>, zs: seq<nat>)
    requires |xs| == |ys| == |zs| && CompareCore(xs, ys) < 0 && CompareCore(ys, zs) < 0
    ensures CompareCore(xs, zs) < 0
  {
    if xs[0] == ys[0] && ys[0] == zs[0] {
      CoreTransitive(xs[1..], ys[1..], zs[1..]);
    }
  }

  lemma {:induction false} ValuesInjective(a: seq<string>, b: seq<string>)
    requires forall i :: 0 <= i < |a| ==> Numeric(a[i])
    requires forall i :: 0 <= i < |b| ==> Numeric(b[i])
    ensures Values(a) == Values(b) <==> a == b
  {
    if Values(a) == Values(b) {
      assert |a| == |Values(a)| && |b| == |Values(b)|;
      forall i | 0 <= i < |a| ensures a[i] == b[i] {
        assert Values(a)[i] == Value(a[i]) && Values(b)[i] == Value(b[i]);
        NumericOrder(a[i], b[i]);
      }
    }
  }

  lemma IdentifiersInjective(a: seq<string>, b: seq<string>)
    requires (forall p :: p in a ==> PreIdentifier(p)) && (forall p :: p in b ==> PreIdentifier(p))
    ensures Identifiers(a) == Identifiers(b) <==> a == b
  {
    if Identifiers(a) == Identifiers(b) {
      assert |a| == |Identifiers(a)| && |b| == |Identifiers(b)|;
      forall i | 0 <= i < |a| ensures a[i] == b[i] {
        assert Identifiers(a)[i] == Meaning(a[i]) && Identifiers(b)[i] == Meaning(b[i]);
        IdentifierOrder(a[i], b[i]);
        IdentifierTotal(Meaning(a[i]), Meaning(b[i]), Meaning(a[i]));
      }
    }
  }

  lemma CutIsWhole(s: string, c: char)
    ensures s == if Cut(s, c).1.Some? then Cut(s, c).0 + [c] + Cut(s, c).1.value else Cut(s, c).0
  {
    if c in s { CutAt(s, IndexOf(s, c)); }
  }

  /** The parts hold everything a version says before its build metadata. */
  lemma PartsGiveBackTheText(version: string)
    requires SemanticVersionParts(version).Some?
    ensures var parts := SemanticVersionParts(version).value;
            Cut(version, '+').0 == if parts.1 == [] then Join(parts.0, '.') else Join(parts.0, '.') + "-" + Join(parts.1, '.')
  {
    var head := Cut(version, '+').0;
    var (core, pre) := Cut(head, '-');
    CutIsWhole(head, '-');
    JoinSplit(core, '.');
    if pre.Some? { JoinSplit(pre.value, '.'); }
  }

  lemma SamePartsSameText(a: string, b: string)
    requires SemanticVersionParts(a).Some? && SemanticVersionParts(b).Some?
    ensures SemanticVersionParts(a) == SemanticVersionParts(b) <==> Cut(a, '+').0 == Cut(b, '+').0
  {
    PartsGiveBackTheText(a);
    PartsGiveBackTheText(b);
  }

  lemma SameMeaningSameParts(a: string, b: string)
    requires Read(a).Some? && Read(b).Some?
    ensures Read(a) == Read(b) <==> SemanticVersionParts(a) == SemanticVersionParts(b)
  {
    var p, q := SemanticVersionParts(a).value, SemanticVersionParts(b).value;
    ValuesInjective(p.0, q.0);
    IdentifiersInjective(p.1, q.1);
  }

  /** Of two valid versions at most one is newer, and neither is exactly when they are the same up to build metadata. */
  lemma Trichotomy(a: string, b: string)
    requires Read(a).Some? && Read(b).Some?
    ensures !(Newer(a, b) && Newer(b, a))
    ensures !Newer(a, b) && !Newer(b, a) <==> Cut(a, '+').0 == Cut(b, '+').0
  {
    var v, w := Read(a).value, Read(b).value;
    CoreTotal(v.core, w.core);
    PreTotal(v.pre, w.pre);
    SameMeaningSameParts(a, b);
    SamePartsSameText(a, b);
  }

  lemma NewerIsTransitive(a: string, b: string, c: string)
    requires Newer(a, b) && Newer(b, c)
    ensures Newer(a, c)
  {
    var u, v, w := Read(a).value, Read(b).value, Read(c).value;
    CoreTotal(u.core, v.core);
    CoreTotal(v.core, w.core);
    CoreTotal(u.core, w.core);
    PreTotal(u.pre, v.pre);
    PreTotal(v.pre, w.pre);
    PreTotal(u.pre, w.pre);
    if CompareCore(w.core, v.core) < 0 && CompareCore(v.core, u.core) < 0 {
      CoreTotal(w.core, v.core);
      CoreTransitive(w.core, v.core, u.core);
    }
    if ComparePre(w.pre, v.pre) < 0 && ComparePre(v.pre, u.pre) < 0 {
      PreTransitive(w.pre, v.pre, u.pre);
    }
  }
}
