/**
 The canonical text of a JSON value in apps/cli/src/iac/manifest.ts, which manifest digests are taken of.
 Names are ordered by a given collation. A number is its numeral, as JSON.stringify prints it; Absent is
 undefined.
 */
module CanonicalJson {
  import opened Commons
  import opened Numerals
  import opened Text
  import opened Sorting

  datatype Json =
    | Absent
    | Null
    | Boolean(b: bool)
    | Number(numeral: string)
    | String(chars: string)
    | Array(items: seq<Json>)
    | Object(fields: seq<Field>)

  datatype Field = Field(name: string, value: Json)

  // ---------------------------------------------------------------------------
  // Strings
  // ---------------------------------------------------------------------------

  /** The letter of a two-character escape. */
  function ShortEscape(c: char): Option<char> {
    if c == '"' || c == '\\' then Some(c)
    else if c == '\U{8}' then Some('b')
    else if c == '\U{C}' then Some('f')
    else if c == '\n' then Some('n')
    else if c == '\r' then Some('r')
    else if c == '\t' then Some('t')
    else None
  }

  function Escape(c: char): string {
    if ShortEscape(c).Some? then ['\\', ShortEscape(c).value]
    else if c < ' ' then ['\\', 'u', '0', '0', Digit(c as int / 16), Digit(c as int % 16)]
    else [c]
  }

  function EscapeAll(s: string): string {
    if s == [] then [] else Escape(s[0]) + EscapeAll(s[1..])
  }

  function Stringify(s: string): string {
    ['"'] + EscapeAll(s) + ['"']
  }

  function Unescape(c: char): Option<char> {
    if c == '"' || c == '\\' then Some(c)
    else if c == 'b' then Some('\U{8}')
    else if c == 'f' then Some('\U{C}')
    else if c == 'n' then Some('\n')
    else if c == 'r' then Some('\r')
    else if c == 't' then Some('\t')
    else None
  }

  function Before(c: char, r: Option<(string, string)>): Option<(string, string)> {
    if r.None? then None else Some(([c] + r.value.0, r.value.1))
  }

  /** The characters up to the closing quote, and what follows it. */
  function ReadChars(s: string): (r: Option<(string, string)>)
    ensures r.Some? ==> |r.value.1| < |s|
  {
    if s == [] then None
    else if s[0] == '"' then Some(("", s[1..]))
    else if s[0] != '\\' then Before(s[0], ReadChars(s[1..]))
    else if |s| >= 2 && Unescape(s[1]).Some? then Before(Unescape(s[1]).value, ReadChars(s[2..]))
    else if |s| >= 6 && s[1] == 'u' && s[2] == s[3] == '0' && DigitValue(s[4]) >= 0 && DigitValue(s[5]) >= 0
    then Before((16 * DigitValue(s[4]) + DigitValue(s[5])) as char, ReadChars(s[6..]))
    else None
  }

  lemma UnicodeEscapeIsRead(h: char, l: char, rest: string)
    requires DigitValue(h) >= 0 && DigitValue(l) >= 0
    ensures ReadChars(['\\', 'u', '0', '0', h, l] + rest) == Before((16 * DigitValue(h) + DigitValue(l)) as char, ReadChars(rest))
  {
    assert (['\\', 'u', '0', '0', h, l] + rest)[6..] == rest;
  }

  lemma ShortEscapeIsRead(c: char, rest: string)
    requires Unescape(c).Some?
    ensures ReadChars(['\\', c] + rest) == Before(Unescape(c).value, ReadChars(rest))
  {
    assert (['\\', c] + rest)[2..] == rest;
  }

  lemma EscapeIsRead(c: char, rest: string)
    ensures ReadChars(Escape(c) + rest) == Before(c, ReadChars(rest))
  {
    if ShortEscape(c).Some? {
      ShortEscapeIsRead(ShortEscape(c).value, rest);
    } else if c >= ' ' {
      assert ([c] + rest)[1..] == rest;
    } else {
      DigitIsRead(c as int / 16);
      DigitIsRead(c as int % 16);
      UnicodeEscapeIsRead(Digit(c as int / 16), Digit(c as int % 16), rest);
    }
  }

  lemma {:induction false} StringIsRead(chars: string, rest: string)
    ensures ReadChars(EscapeAll(chars) + ['"'] + rest) == Some((chars, rest))
  {
    if chars == [] {
      assert EscapeAll(chars) + ['"'] + rest == ['"'] + rest;
    } else {
      var others := EscapeAll(chars[1..]) + ['"'] + rest;
      StringIsRead(chars[1..], rest);
      assert EscapeAll(chars) + ['"'] + rest == Escape(chars[0]) + others;
      EscapeIsRead(chars[0], others);
      assert chars == [chars[0]] + chars[1..];
    }
  }

  // ---------------------------------------------------------------------------
  // The canonical text
  // ---------------------------------------------------------------------------

  /** The name and the canonical text of a present entry. */
  datatype Member = Member(name: string, text: string)

  function ByMember(below: Relation<string>): Relation<Member> {
    (m: Member, n: Member) => below(m.name, n.name)
  }

  function CanonicalText(value: Json, below: Relation<string>): string
    decreases value
  {
    match value
    case Absent => ""
    case Null => "null"
    case Boolean(b) => if b then "true" else "false"
    case Number(numeral) => numeral
    case String(chars) => Stringify(chars)
    case Array(items) => "[" + Commas(Texts(items, below)) + "]"
    case Object(fields) => "{" + Commas(Entries(Sort(Members(fields, below), ByMember(below)))) + "}"
  }

  function Texts(items: seq<Json>, below: Relation<string>): seq<string>
    decreases items
  {
    if items == [] then [] else [CanonicalText(items[0], below)] + Texts(items[1..], below)
  }

  /** Entries that are not undefined. */
  function Members(fields: seq<Field>, below: Relation<string>): seq<Member>
    decreases fields
  {
    if fields == [] then []
    else
      assert fields[0].value < fields[0];
      var others := Members(fields[1..], below);
      if fields[0].value.Absent? then others
      else [Member(fields[0].name, CanonicalText(fields[0].value, below))] + others
  }

  function Entries(members: seq<Member>): seq<string> {
    if members == [] then [] else [Stringify(members[0].name) + ":" + members[0].text] + Entries(members[1..])
  }

  function Commas(texts: seq<string>): string {
    if texts == [] then "" else Join(texts, ',')
  }

  // ---------------------------------------------------------------------------
  // What a value means
  // ---------------------------------------------------------------------------

  datatype Value =
    | VAbsent
    | VNull
    | VBoolean(b: bool)
    | VNumber(numeral: string)
    | VString(chars: string)
    | VArray(items: seq<Value>)
    | VObject(entries: map<string, Value>)

  /** Objects are maps from names to the values of present entries. */
  ghost function Meaning(value: Json): Value
    decreases value
  {
    match value
    case Absent => VAbsent
    case Null => VNull
    case Boolean(b) => VBoolean(b)
    case Number(numeral) => VNumber(numeral)
    case String(chars) => VString(chars)
    case Array(items) => VArray(Meanings(items))
    case Object(fields) => VObject(MapOf(fields))
  }

  ghost function Meanings(items: seq<Json>): (r: seq<Value>)
    ensures |r| == |items| && forall i :: 0 <= i < |items| ==> r[i] == Meaning(items[i])
    decreases items
  {
    if items == [] then [] else [Meaning(items[0])] + Meanings(items[1..])
  }

  ghost function MapOf(fields: seq<Field>): map<string, Value>
    decreases fields
  {
    if fields == [] then map[]
    else
      assert fields[0].value < fields[0];
      if fields[0].value.Absent? then MapOf(fields[1..]) else MapOf(fields[1..])[fields[0].name := Meaning(fields[0].value)]
  }

  predicate IsNumeralChar(c: char) {
    '0' <= c <= '9' || c == '-' || c == '+' || c == '.' || c == 'e' || c == 'E'
  }

  predicate Numeral(s: string) {
    s != [] && ('0' <= s[0] <= '9' || s[0] == '-') && forall i :: 0 <= i < |s| ==> IsNumeralChar(s[i])
  }

  ghost predicate UniqueNames(fields: seq<Field>) {
    forall i, j :: 0 <= i < j < |fields| ==> fields[i].name != fields[j].name
  }

  /** Names are unique, as in every JavaScript object, and numbers are numerals. */
  ghost predicate Sound(value: Json)
    decreases value
  {
    match value
    case Number(numeral) => Numeral(numeral)
    case Array(items) => forall i :: 0 <= i < |items| ==> Sound(items[i])
    case Object(fields) => UniqueNames(fields) && forall i :: 0 <= i < |fields| ==> SoundField(fields[i])
    case _ => true
  }

  ghost predicate SoundField(field: Field)
    decreases field
  {
    Sound(field.value)
  }

  /** No array holds undefined and nothing else. */
  ghost predicate Legible(value: Json)
    decreases value
  {
    match value
    case Array(items) => items != [Absent] && forall i :: 0 <= i < |items| ==> Legible(items[i])
    case Object(fields) => forall i :: 0 <= i < |fields| ==> LegibleField(fields[i])
    case _ => true
  }

  ghost predicate LegibleField(field: Field)
    decreases field
  {
    Legible(field.value)
  }

  // ---------------------------------------------------------------------------
  // The normal form: present entries only, sorted by name at every level
  // ---------------------------------------------------------------------------

  function ByName(below: Relation<string>): Relation<Field> {
    (f: Field, g: Field) => below(f.name, g.name)
  }

  function Normal(value: Json, below: Relation<string>): (r: Json)
    ensures r.Absent? <==> value.Absent?
    decreases value
  {
    match value
    case Array(items) => Array(NormalItems(items, below))
    case Object(fields) => Object(Sort(NormalFields(fields, below), ByName(below)))
    case _ => value
  }

  function NormalItems(items: seq<Json>, below: Relation<string>): (r: seq<Json>)
    ensures |r| == |items| && forall i :: 0 <= i < |items| ==> r[i] == Normal(items[i], below)
    decreases items
  {
    if items == [] then [] else [Normal(items[0], below)] + NormalItems(items[1..], below)
  }

  function NormalFields(fields: seq<Field>, below: Relation<string>): seq<Field>
    decreases fields
  {
    if fields == [] then []
    else
      assert fields[0].value < fields[0];
      var others := NormalFields(fields[1..], below);
      if fields[0].value.Absent? then others
      else [Field(fields[0].name, Normal(fields[0].value, below))] + others
  }

  /** A value as it stands, entries in their order. */
  function Print(value: Json): string
    decreases value
  {
    match value
    case Absent => ""
    case Null => "null"
    case Boolean(b) => if b then "true" else "false"
    case Number(numeral) => numeral
    case String(chars) => Stringify(chars)
    case Array(items) => "[" + Commas(Prints(items)) + "]"
    case Object(fields) => "{" + Commas(Entries(Printed(fields))) + "}"
  }

  function Prints(items: seq<Json>): seq<string>
    decreases items
  {
    if items == [] then [] else [Print(items[0])] + Prints(items[1..])
  }

  function Printed(fields: seq<Field>): seq<Member>
    decreases fields
  {
    if fields == [] then []
    else
      assert fields[0].value < fields[0];
      [Member(fields[0].name, Print(fields[0].value))] + Printed(fields[1..])
  }

  lemma {:induction false} InsertPrints(f: Field, fields: seq<Field>, below: Relation<string>)
    ensures Printed(Insert(f, fields, ByName(below)))
         == Insert(Member(f.name, Print(f.value)), Printed(fields), ByMember(below))
    decreases |fields|
  {
    var m := Member(f.name, Print(f.value));
    if fields == [] {
      assert [f][1..] == [];
    } else if below(f.name, fields[0].name) {
      assert ([f] + fields)[1..] == fields;
    } else {
      InsertPrints(f, fields[1..], below);
      var others := Insert(f, fields[1..], ByName(below));
      assert ([fields[0]] + others)[1..] == others;
      assert Printed(fields)[1..] == Printed(fields[1..]);
    }
  }

  lemma {:induction false} SortPrints(fields: seq<Field>, below: Relation<string>)
    ensures Printed(Sort(fields, ByName(below))) == Sort(Printed(fields), ByMember(below))
    decreases |fields|
  {
    if fields != [] {
      SortPrints(fields[1..], below);
      InsertPrints(fields[0], Sort(fields[1..], ByName(below)), below);
      assert Printed(fields)[1..] == Printed(fields[1..]);
    }
  }

  /** The canonical text is the normal form printed as it stands. */
  lemma {:induction false} TextOfNormal(value: Json, below: Relation<string>)
    ensures CanonicalText(value, below) == Print(Normal(value, below))
    decreases value
  {
    match value
    case Array(items) => TextsOfNormal(items, below);
    case Object(fields) =>
      MembersOfNormal(fields, below);
      SortPrints(NormalFields(fields, below), below);
    case _ =>
  }

  lemma {:induction false} TextsOfNormal(items: seq<Json>, below: Relation<string>)
    ensures Texts(items, below) == Prints(NormalItems(items, below))
    decreases items
  {
    if items != [] {
      TextOfNormal(items[0], below);
      TextsOfNormal(items[1..], below);
      assert NormalItems(items, below)[1..] == NormalItems(items[1..], below);
    }
  }

  lemma {:induction false} MembersOfNormal(fields: seq<Field>, below: Relation<string>)
    ensures Members(fields, below) == Printed(NormalFields(fields, below))
    decreases fields
  {
    if fields != [] {
      assert fields[0].value < fields[0];
      TextOfNormal(fields[0].value, below);
      MembersOfNormal(fields[1..], below);
      if !fields[0].value.Absent? {
        assert NormalFields(fields, below)[1..] == NormalFields(fields[1..], below);
      }
    }
  }
}
