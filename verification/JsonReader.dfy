/**
 Reading canonical JSON text back. The text has one reading, so one text never stands for two meanings.
 Values that mean the same have one text as long as no two present names of one object of the value tie
 under the collation.
 */
module JsonReader {
  import opened Commons
  import opened Text
  import opened Sorting
  import opened CanonicalJson

  // ---------------------------------------------------------------------------
  // A reader for JSON text without white space
  // ---------------------------------------------------------------------------

  function NumeralLength(s: string): (n: nat)
    ensures n <= |s| && forall i :: 0 <= i < n ==> IsNumeralChar(s[i])
    ensures n < |s| ==> !IsNumeralChar(s[n])
  {
    if s == [] || !IsNumeralChar(s[0]) then 0 else 1 + NumeralLength(s[1..])
  }

  function ReadLiteral(s: string, text: string, value: Json): Option<(Json, string)> {
    if text <= s then Some((value, s[|text|..])) else None
  }

  /** The value at the start of a text, and what follows it. */
  function ReadValue(s: string): (r: Option<(Json, string)>)
    ensures r.Some? ==> |r.value.1| < |s|
    decreases |s|, 1
  {
    if s == [] then None
    else if s[0] == 'n' then ReadLiteral(s, "null", Null)
    else if s[0] == 't' then ReadLiteral(s, "true", Boolean(true))
    else if s[0] == 'f' then ReadLiteral(s, "false", Boolean(false))
    else if s[0] == '"' then
      match ReadChars(s[1..])
      case None => None
      case Some((chars, rest)) => Some((String(chars), rest))
    else if s[0] == '[' then
      if |s| > 1 && s[1] == ']' then Some((Array([]), s[2..]))
      else
        match ReadItems(s[1..])
        case None => None
        case Some((items, rest)) => Some((Array(items), rest))
    else if s[0] == '{' then
      if |s| > 1 && s[1] == '}' then Some((Object([]), s[2..]))
      else
        match ReadFields(s[1..])
        case None => None
        case Some((fields, rest)) => Some((Object(fields), rest))
    else if '0' <= s[0] <= '9' || s[0] == '-' then Some((Number(s[..NumeralLength(s)]), s[NumeralLength(s)..]))
    else None
  }

  /** An item of an array; nothing between two separators is an absent one. */
  function ReadItem(s: string): (r: Option<(Json, string)>)
    ensures r.Some? ==> |r.value.1| <= |s|
    decreases |s|, 2
  {
    if s != [] && (s[0] == ',' || s[0] == ']') then Some((Absent, s)) else ReadValue(s)
  }

  function ReadItems(s: string): (r: Option<(seq<Json>, string)>)
    ensures r.Some? ==> |r.value.1| < |s|
    decreases |s|, 3
  {
    match ReadItem(s)
    case None => None
    case Some((value, rest)) => MoreItems(value, rest)
  }

  function MoreItems(value: Json, rest: string): (r: Option<(seq<Json>, string)>)
    ensures r.Some? ==> |r.value.1| < |rest|
    decreases |rest|, 0
  {
    if rest == [] then None
    else if rest[0] == ']' then Some(([value], rest[1..]))
    else if rest[0] != ',' then None
    else
      match ReadItems(rest[1..])
      case None => None
      case Some((values, last)) => Some(([value] + values, last))
  }

  function ReadFields(s: string): (r: Option<(seq<Field>, string)>)
    ensures r.Some? ==> |r.value.1| < |s|
    decreases |s|, 2
  {
    if s == [] || s[0] != '"' then None
    else
      match ReadChars(s[1..])
      case None => None
      case Some((name, rest)) => ReadNamed(name, rest)
  }

  function ReadNamed(name: string, s: string): (r: Option<(seq<Field>, string)>)
    ensures r.Some? ==> |r.value.1| < |s|
    decreases |s|, 2
  {
    if s == [] || s[0] != ':' then None
    else
      match ReadValue(s[1..])
      case None => None
      case Some((value, rest)) => MoreFields(Field(name, value), rest)
  }

  function MoreFields(field: Field, rest: string): (r: Option<(seq<Field>, string)>)
    ensures r.Some? ==> |r.value.1| < |rest|
    decreases |rest|, 0
  {
    if rest == [] then None
    else if rest[0] == '}' then Some(([field], rest[1..]))
    else if rest[0] != ',' then None
    else
      match ReadFields(rest[1..])
      case None => None
      case Some((fields, last)) => Some(([field] + fields, last))
  }

  // ---------------------------------------------------------------------------
  // Printed values are read back
  // ---------------------------------------------------------------------------

  ghost predicate Printable(value: Json)
    decreases value
  {
    match value
    case Absent => false
    case Number(numeral) => Numeral(numeral)
    case Array(items) => items != [Absent] && forall i :: 0 <= i < |items| ==> items[i] == Absent || Printable(items[i])
    case Object(fields) => forall i :: 0 <= i < |fields| ==> PrintableField(fields[i])
    case _ => true
  }

  ghost predicate PrintableField(field: Field)
    decreases field
  {
    Printable(field.value)
  }

  /** What may follow a value: nothing that could belong to it. */
  predicate Stops(s: string) {
    s == [] || s[0] == ',' || s[0] == ']' || s[0] == '}'
  }

  lemma {:induction false} NumeralStops(numeral: string, rest: string)
    requires (forall i :: 0 <= i < |numeral| ==> IsNumeralChar(numeral[i])) && Stops(rest)
    ensures NumeralLength(numeral + rest) == |numeral|
  {
    if numeral == [] {
      assert numeral + rest == rest;
    } else {
      NumeralStops(numeral[1..], rest);
      assert (numeral + rest)[1..] == numeral[1..] + rest;
    }
  }

  lemma LiteralIsRead(text: string, rest: string, value: Json)
    ensures ReadLiteral(text + rest, text, value) == Some((value, rest))
  {
    assert (text + rest)[|text|..] == rest;
  }

  lemma NumberIsRead(numeral: string, rest: string)
    requires Numeral(numeral) && Stops(rest)
    ensures ReadValue(numeral + rest) == Some((Number(numeral), rest))
  {
    NumeralStops(numeral, rest);
    assert (numeral + rest)[..|numeral|] == numeral && (numeral + rest)[|numeral|..] == rest;
    assert (numeral + rest)[0] == numeral[0];
  }

  lemma QuotedIsRead(chars: string, rest: string)
    ensures var s := Stringify(chars) + rest; s[0] == '"' && ReadChars(s[1..]) == Some((chars, rest))
  {
    StringIsRead(chars, rest);
    assert (Stringify(chars) + rest)[1..] == EscapeAll(chars) + ['"'] + rest;
  }

  lemma StringValueIsRead(chars: string, rest: string)
    ensures ReadValue(Stringify(chars) + rest) == Some((String(chars), rest))
  {
    QuotedIsRead(chars, rest);
  }

  lemma {:induction false} PrintIsRead(value: Json, rest: string)
    requires Printable(value) && Stops(rest)
    ensures ReadValue(Print(value) + rest) == Some((value, rest))
    decreases value
  {
    match value
    case Null => LiteralIsRead("null", rest, Null);
    case Boolean(b) => LiteralIsRead(if b then "true" else "false", rest, value);
    case Number(numeral) => NumberIsRead(numeral, rest);
    case String(chars) => StringValueIsRead(chars, rest);
    case Array(items) =>
      if items == [] {
        assert Print(value) + rest == ['[', ']'] + rest && (['[', ']'] + rest)[2..] == rest;
      } else {
        ItemsAreRead(items, rest);
        InsideStarts(items);
        BracketIsRead(items, rest);
      }
    case Object(fields) =>
      if fields == [] {
        assert Print(value) + rest == ['{', '}'] + rest && (['{', '}'] + rest)[2..] == rest;
      } else {
        FieldsAreRead(fields, rest);
        BraceIsRead(fields, rest);
      }
  }

  lemma FirstChar(value: Json)
    requires Printable(value)
    ensures Print(value) != [] && Print(value)[0] !in {',', ']', '}'}
  {}

  lemma Enclosed(open: char, text: string, close: char, rest: string)
    ensures [open] + text + [close] + rest == [open] + (text + ([close] + rest))
    ensures ([open] + text + [close] + rest)[1..] == text + ([close] + rest)
  {}

  lemma BracketIsRead(items: seq<Json>, rest: string)
    requires Commas(Prints(items)) != [] && Commas(Prints(items))[0] != ']'
    requires ReadItems(Commas(Prints(items)) + ([']'] + rest)) == Some((items, rest))
    ensures ReadValue(Print(Array(items)) + rest) == Some((Array(items), rest))
  {
    BracketsAreRead(Commas(Prints(items)), items, rest);
  }

  lemma BracketsAreRead(inside: string, items: seq<Json>, rest: string)
    requires inside != [] && inside[0] != ']' && ReadItems(inside + ([']'] + rest)) == Some((items, rest))
    ensures ReadValue(['['] + inside + [']'] + rest) == Some((Array(items), rest))
  {
    Enclosed('[', inside, ']', rest);
    assert (inside + ([']'] + rest))[0] == inside[0];
  }

  /** The text of an array other than [] and [undefined] does not close at once. */
  lemma InsideStarts(items: seq<Json>)
    requires items != [] && items != [Absent] && (items[0] == Absent || Printable(items[0]))
    ensures Commas(Prints(items)) != [] && Commas(Prints(items))[0] != ']'
  {
    var rest := Prints(items[1..]);
    assert items == [items[0]] + items[1..];
    CommasUnfold(Print(items[0]), rest, "");
    assert Commas(Prints(items)) + "" == Commas(Prints(items));
    if items[0] == Absent {
      PrintsLength(items[1..]);
    } else {
      FirstChar(items[0]);
    }
  }

  lemma {:induction false} PrintsLength(items: seq<Json>)
    ensures |Prints(items)| == |items|
    decreases |items|
  {
    if items != [] { PrintsLength(items[1..]); }
  }

  lemma BraceIsRead(fields: seq<Field>, rest: string)
    requires fields != [] && ReadFields(Commas(Entries(Printed(fields))) + (['}'] + rest)) == Some((fields, rest))
    ensures ReadValue(Print(Object(fields)) + rest) == Some((Object(fields), rest))
  {
    BracesAreRead(Commas(Entries(Printed(fields))), fields, rest);
  }

  lemma BracesAreRead(inside: string, fields: seq<Field>, rest: string)
    requires ReadFields(inside + (['}'] + rest)) == Some((fields, rest))
    ensures ReadValue(['{'] + inside + ['}'] + rest) == Some((Object(fields), rest))
  {
    Enclosed('{', inside, '}', rest);
  }

  /** What follows the first of the printed items. */
  ghost function AfterItem(items: seq<Json>, rest: string): string
    requires items != []
  {
    if |items| == 1 then [']'] + rest else [','] + (Commas(Prints(items[1..])) + ([']'] + rest))
  }

  lemma CommasUnfold(first: string, others: seq<string>, last: string)
    ensures Commas([first] + others) + last == first + if others == [] then last else [','] + (Commas(others) + last)
  {
    assert ([first] + others)[1..] == others;
    if others == [] {
      assert [first] + others == [first];
    } else {
      var rest := Join(others, ',');
      assert first + [','] + rest + last == first + ([','] + (rest + last));
    }
  }

  lemma ItemsUnfold(items: seq<Json>, rest: string)
    requires items != []
    ensures Commas(Prints(items)) + ([']'] + rest) == Print(items[0]) + AfterItem(items, rest)
  {
    CommasUnfold(Print(items[0]), Prints(items[1..]), [']'] + rest);
  }

  lemma MoreItemsRead(items: seq<Json>, rest: string)
    requires items != []
    requires |items| > 1 ==> ReadItems(Commas(Prints(items[1..])) + ([']'] + rest)) == Some((items[1..], rest))
    ensures MoreItems(items[0], AfterItem(items, rest)) == Some((items, rest))
  {
    if |items| == 1 {
      assert ([']'] + rest)[1..] == rest && items == [items[0]];
    } else {
      assert AfterItem(items, rest)[1..] == Commas(Prints(items[1..])) + ([']'] + rest);
      assert items == [items[0]] + items[1..];
    }
  }

  lemma ItemIsRead(value: Json, rest: string)
    requires value != Absent ==> Printable(value) && ReadValue(Print(value) + rest) == Some((value, rest))
    requires rest != [] && (rest[0] == ',' || rest[0] == ']')
    ensures ReadItem(Print(value) + rest) == Some((value, rest))
  {
    if value == Absent {
      assert Print(value) + rest == rest;
    } else {
      FirstChar(value);
      assert (Print(value) + rest)[0] == Print(value)[0];
    }
  }

  lemma {:induction false} ItemsAreRead(items: seq<Json>, rest: string)
    requires items != [] && forall i :: 0 <= i < |items| ==> items[i] == Absent || Printable(items[i])
    ensures ReadItems(Commas(Prints(items)) + ([']'] + rest)) == Some((items, rest))
    decreases items
  {
    if items[0] != Absent { PrintIsRead(items[0], AfterItem(items, rest)); }
    ItemIsRead(items[0], AfterItem(items, rest));
    if |items| > 1 { ItemsAreRead(items[1..], rest); }
    ItemsUnfold(items, rest);
    MoreItemsRead(items, rest);
  }

  ghost function AfterField(fields: seq<Field>, rest: string): string
    requires fields != []
  {
    if |fields| == 1 then ['}'] + rest else [','] + (Commas(Entries(Printed(fields[1..]))) + (['}'] + rest))
  }

  lemma NamedText(name: string, value: string, after: string)
    ensures name + ":" + value + after == name + ([':'] + (value + after))
  {}

  lemma EntriesUnfold(fields: seq<Field>)
    requires fields != []
    ensures Entries(Printed(fields))
         == [Stringify(fields[0].name) + ":" + Print(fields[0].value)] + Entries(Printed(fields[1..]))
    ensures Entries(Printed(fields[1..])) == [] <==> |fields| == 1
  {
    assert Printed(fields)[1..] == Printed(fields[1..]);
  }

  lemma FieldsUnfold(fields: seq<Field>, rest: string)
    requires fields != []
    ensures Commas(Entries(Printed(fields))) + (['}'] + rest)
         == Stringify(fields[0].name) + ([':'] + (Print(fields[0].value) + AfterField(fields, rest)))
  {
    EntriesUnfold(fields);
    CommasUnfold(Stringify(fields[0].name) + ":" + Print(fields[0].value), Entries(Printed(fields[1..])), ['}'] + rest);
    NamedText(Stringify(fields[0].name), Print(fields[0].value), AfterField(fields, rest));
  }

  lemma MoreFieldsRead(fields: seq<Field>, rest: string)
    requires fields != []
    requires |fields| > 1 ==> ReadFields(Commas(Entries(Printed(fields[1..]))) + (['}'] + rest)) == Some((fields[1..], rest))
    ensures MoreFields(fields[0], AfterField(fields, rest)) == Some((fields, rest))
  {
    if |fields| == 1 {
      assert (['}'] + rest)[1..] == rest && fields == [fields[0]];
    } else {
      assert AfterField(fields, rest)[1..] == Commas(Entries(Printed(fields[1..]))) + (['}'] + rest);
      assert fields == [fields[0]] + fields[1..];
    }
  }

  lemma NamedIsRead(field: Field, after: string)
    requires ReadValue(Print(field.value) + after) == Some((field.value, after))
    ensures ReadFields(Stringify(field.name) + ([':'] + (Print(field.value) + after))) == MoreFields(field, after)
  {
    var value := Print(field.value) + after;
    QuotedIsRead(field.name, [':'] + value);
    assert ([':'] + value)[1..] == value;
  }

  lemma {:induction false} FieldsAreRead(fields: seq<Field>, rest: string)
    requires fields != [] && forall i :: 0 <= i < |fields| ==> PrintableField(fields[i])
    ensures ReadFields(Commas(Entries(Printed(fields))) + (['}'] + rest)) == Some((fields, rest))
    decreases fields
  {
    assert fields[0].value < fields[0];
    assert PrintableField(fields[0]);
    PrintIsRead(fields[0].value, AfterField(fields, rest));
    if |fields| > 1 { FieldsAreRead(fields[1..], rest); }
    FieldsUnfold(fields, rest);
    NamedIsRead(fields[0], AfterField(fields, rest));
    MoreFieldsRead(fields, rest);
  }

  // ---------------------------------------------------------------------------
  // The canonical text is read back as the normal form
  // ---------------------------------------------------------------------------

  lemma {:induction false} NormalIsPrintable(value: Json, below: Relation<string>)
    requires Sound(value) && Legible(value) && value != Absent
    ensures Printable(Normal(value, below))
    decreases value
  {
    match value
    case Array(items) =>
      var normal := NormalItems(items, below);
      forall i | 0 <= i < |items| ensures normal[i] == Absent || Printable(normal[i]) {
        if items[i] != Absent { NormalIsPrintable(items[i], below); }
      }
      assert |items| == 1 ==> items == [items[0]] && normal[0] == Normal(items[0], below);
    case Object(fields) =>
      NormalFieldsArePrintable(fields, below);
      var normal := NormalFields(fields, below);
      SortPermutes(normal, ByName(below));
      SameMembers(Sort(normal, ByName(below)), normal);
      forall i | 0 <= i < |Sort(normal, ByName(below))| ensures PrintableField(Sort(normal, ByName(below))[i]) {
        assert Sort(normal, ByName(below))[i] in normal;
      }
    case _ =>
  }

  lemma {:induction false} NormalFieldsArePrintable(fields: seq<Field>, below: Relation<string>)
    requires forall i :: 0 <= i < |fields| ==> SoundField(fields[i]) && LegibleField(fields[i])
    ensures forall f :: f in NormalFields(fields, below) ==> PrintableField(f)
    decreases fields
  {
    if fields != [] {
      assert fields[0].value < fields[0];
      assert SoundField(fields[0]) && LegibleField(fields[0]);
      if !fields[0].value.Absent? { NormalIsPrintable(fields[0].value, below); }
      NormalFieldsArePrintable(fields[1..], below);
    }
  }

  /** The canonical text of a value is read back as its normal form. */
  lemma CanonicalTextIsReadBack(value: Json, below: Relation<string>)
    requires Sound(value) && Legible(value) && value != Absent
    ensures ReadValue(CanonicalText(value, below)) == Some((Normal(value, below), ""))
  {
    NormalIsPrintable(value, below);
    PrintIsRead(Normal(value, below), "");
    TextOfNormal(value, below);
    assert Print(Normal(value, below)) + "" == Print(Normal(value, below));
  }

  // ---------------------------------------------------------------------------
  // Equal texts are equal meanings
  // ---------------------------------------------------------------------------

  ghost predicate Entry(fields: seq<Field>, name: string, i: int) {
    0 <= i < |fields| && fields[i].name == name && fields[i].value != Absent
  }

  lemma {:induction false} Lookup(fields: seq<Field>, name: string)
    requires UniqueNames(fields)
    ensures name in MapOf(fields) <==> exists i :: Entry(fields, name, i)
    ensures forall i :: Entry(fields, name, i) ==> MapOf(fields)[name] == Meaning(fields[i].value)
    decreases fields
  {
    if fields != [] {
      Lookup(fields[1..], name);
      forall i | Entry(fields, name, i) ensures i == 0 || Entry(fields[1..], name, i - 1) {}
      forall i | Entry(fields[1..], name, i) ensures Entry(fields, name, i + 1) {}
      assert Entry(fields, name, 0) <==> fields[0].name == name && fields[0].value != Absent;
    }
  }

  lemma SameEntriesSameMap(fields: seq<Field>, others: seq<Field>)
    requires UniqueNames(fields) && UniqueNames(others)
    requires forall i, name :: Entry(fields, name, i) ==> exists j :: Entry(others, name, j) && Meaning(others[j].value) == Meaning(fields[i].value)
    requires forall j, name :: Entry(others, name, j) ==> exists i :: Entry(fields, name, i)
    ensures MapOf(fields) == MapOf(others)
  {
    forall name ensures name in MapOf(fields) <==> name in MapOf(others) {
      Lookup(fields, name);
      Lookup(others, name);
    }
    forall name | name in MapOf(fields) ensures MapOf(fields)[name] == MapOf(others)[name] {
      Lookup(fields, name);
      Lookup(others, name);
    }
  }

  /** The normalised entries are the present entries, in their order, with the same names. */
  lemma {:induction false} NormalFieldsAre(fields: seq<Field>, below: Relation<string>, f: Field)
    ensures f in NormalFields(fields, below)
       <==> exists i :: Entry(fields, f.name, i) && f.value == Normal(fields[i].value, below)
    decreases fields
  {
    if fields != [] {
      NormalFieldsAre(fields[1..], below, f);
      forall i | Entry(fields, f.name, i) ensures i == 0 || Entry(fields[1..], f.name, i - 1) {}
      forall i | Entry(fields[1..], f.name, i) ensures Entry(fields, f.name, i + 1) {}
      assert Entry(fields, f.name, 0) <==> fields[0].name == f.name && fields[0].value != Absent;
    }
  }

  lemma {:induction false} NormalFieldsKeepNamesUnique(fields: seq<Field>, below: Relation<string>)
    requires UniqueNames(fields)
    ensures UniqueNames(NormalFields(fields, below))
    decreases fields
  {
    if fields != [] {
      NormalFieldsKeepNamesUnique(fields[1..], below);
      var others := NormalFields(fields[1..], below);
      forall i | 0 <= i < |others| ensures others[i].name != fields[0].name {
        NormalFieldsAre(fields[1..], below, others[i]);
        var k :| Entry(fields[1..], others[i].name, k);
        assert fields[1..][k] == fields[k + 1];
      }
    }
  }

  lemma UniqueNamesAreUnique(fields: seq<Field>)
    requires UniqueNames(fields)
    ensures Unique(fields)
    ensures forall f, g :: f in fields && g in fields && f.name == g.name ==> f == g
  {}

  lemma SortKeepsNamesUnique(fields: seq<Field>, below: Relation<Field>)
    requires UniqueNames(fields)
    ensures UniqueNames(Sort(fields, below)) && SameElements(Sort(fields, below), fields)
  {
    UniqueNamesAreUnique(fields);
    SortKeepsUnique(fields, below);
    var sorted := Sort(fields, below);
    forall i, j | 0 <= i < j < |sorted| ensures sorted[i].name != sorted[j].name {
      assert sorted[i] in fields && sorted[j] in fields && sorted[i] != sorted[j];
    }
  }

  /** Normalising keeps the meaning. */
  lemma {:induction false} NormalKeepsMeaning(value: Json, below: Relation<string>)
    requires Sound(value)
    ensures Meaning(Normal(value, below)) == Meaning(value)
    decreases value
  {
    match value
    case Array(items) =>
      forall i | 0 <= i < |items| ensures Meanings(NormalItems(items, below))[i] == Meanings(items)[i] {
        if items[i] != Absent { NormalKeepsMeaning(items[i], below); }
      }
      assert Meanings(NormalItems(items, below)) == Meanings(items);
    case Object(fields) =>
      forall i | 0 <= i < |fields| ensures Meaning(Normal(fields[i].value, below)) == Meaning(fields[i].value) {
        assert fields[i].value < fields[i];
        assert SoundField(fields[i]);
        NormalKeepsMeaning(fields[i].value, below);
      }
      NormalMapIsTheMap(fields, below);
    case _ =>
  }

  lemma NormalMapIsTheMap(fields: seq<Field>, below: Relation<string>)
    requires UniqueNames(fields)
    requires forall i :: 0 <= i < |fields| ==> Meaning(Normal(fields[i].value, below)) == Meaning(fields[i].value)
    ensures MapOf(Sort(NormalFields(fields, below), ByName(below))) == MapOf(fields)
  {
    var normal := NormalFields(fields, below);
    var sorted := Sort(normal, ByName(below));
    NormalFieldsKeepNamesUnique(fields, below);
    SortKeepsNamesUnique(normal, ByName(below));
    forall i, name | Entry(fields, name, i)
      ensures exists j :: Entry(sorted, name, j) && Meaning(sorted[j].value) == Meaning(fields[i].value)
    {
      var f := Field(name, Normal(fields[i].value, below));
      NormalFieldsAre(fields, below, f);
      assert f in sorted;
      var j :| 0 <= j < |sorted| && sorted[j] == f;
      assert Entry(sorted, name, j);
    }
    forall j, name | Entry(sorted, name, j) ensures exists i :: Entry(fields, name, i) {
      assert sorted[j] in sorted;
      NormalFieldsAre(fields, below, sorted[j]);
    }
    SameEntriesSameMap(fields, sorted);
  }

  lemma NamesOrderFields(below: Relation<string>)
    requires TotalPreorder(below)
    ensures TotalPreorder(ByName(below))
  {
    var byName := ByName(below);
    forall f, g ensures byName(f, g) || byName(g, f) {
      assert below(f.name, g.name) || below(g.name, f.name);
    }
    forall f, g, h | byName(f, g) && byName(g, h) ensures byName(f, h) {
      assert below(f.name, g.name) && below(g.name, h.name);
    }
  }

  // ---------------------------------------------------------------------------
  // Ties among the names of one object
  // ---------------------------------------------------------------------------

  ghost predicate Present(fields: seq<Field>, i: int) {
    0 <= i < |fields| && fields[i].value != Absent
  }

  ghost predicate PresentUntied(fields: seq<Field>, below: Relation<string>) {
    forall i, j :: Present(fields, i) && Present(fields, j) ==> !Tied(below, fields[i].name, fields[j].name)
  }

  /** No object in the value has two present names that tie. */
  ghost predicate NamesUntied(value: Json, below: Relation<string>)
    decreases value
  {
    match value
    case Array(items) => forall i :: 0 <= i < |items| ==> NamesUntied(items[i], below)
    case Object(fields) => PresentUntied(fields, below) && forall i :: 0 <= i < |fields| ==> FieldUntied(fields[i], below)
    case _ => true
  }

  ghost predicate FieldUntied(field: Field, below: Relation<string>)
    decreases field
  {
    NamesUntied(field.value, below)
  }

  lemma NormalFieldsTieAsNames(fields: seq<Field>, below: Relation<string>)
    requires UniqueNames(fields)
    ensures Untied(NormalFields(fields, below), ByName(below)) <==> PresentUntied(fields, below)
  {
    var xs := NormalFields(fields, below);
    NormalFieldsKeepNamesUnique(fields, below);
    if PresentUntied(fields, below) {
      forall p, q | 0 <= p < |xs| && 0 <= q < |xs| ensures !Tied(ByName(below), xs[p], xs[q]) {
        NormalFieldsAre(fields, below, xs[p]);
        NormalFieldsAre(fields, below, xs[q]);
        var i :| Entry(fields, xs[p].name, i);
        var j :| Entry(fields, xs[q].name, j);
        assert Present(fields, i) && Present(fields, j);
        assert xs[p].name == xs[q].name ==> p == q;
      }
    }
    if Untied(xs, ByName(below)) {
      forall i, j | Present(fields, i) && Present(fields, j) ensures !Tied(below, fields[i].name, fields[j].name) {
        var f := Field(fields[i].name, Normal(fields[i].value, below));
        var g := Field(fields[j].name, Normal(fields[j].value, below));
        assert Entry(fields, f.name, i) && Entry(fields, g.name, j);
        NormalFieldsAre(fields, below, f);
        NormalFieldsAre(fields, below, g);
        var p :| 0 <= p < |xs| && xs[p] == f;
        var q :| 0 <= q < |xs| && xs[q] == g;
        assert !Tied(ByName(below), xs[p], xs[q]);
      }
    }
  }

  /** A value without ties has the normal form of every value that means the same. */
  lemma {:induction false} SameMeaningSameNormal(v: Json, w: Json, below: Relation<string>)
    requires Sound(v) && Sound(w) && Meaning(v) == Meaning(w)
    requires TotalPreorder(below) && NamesUntied(v, below)
    ensures Normal(v, below) == Normal(w, below)
    decreases v
  {
    match v
    case Array(items) =>
      forall i | 0 <= i < |items| ensures NormalItems(items, below)[i] == NormalItems(w.items, below)[i] {
        assert Meanings(items)[i] == Meanings(w.items)[i];
        SameMeaningSameNormal(items[i], w.items[i], below);
      }
      assert |items| == |Meanings(items)| == |w.items|;
      assert NormalItems(items, below) == NormalItems(w.items, below);
    case Object(fields) =>
      forall i, j, name | Entry(fields, name, i) && Entry(w.fields, name, j)
        ensures Normal(fields[i].value, below) == Normal(w.fields[j].value, below)
      {
        Lookup(fields, name);
        Lookup(w.fields, name);
        assert fields[i].value < fields[i];
        assert SoundField(fields[i]) && SoundField(w.fields[j]) && FieldUntied(fields[i], below);
        SameMeaningSameNormal(fields[i].value, w.fields[j].value, below);
      }
      SameMapSameNormal(fields, w.fields, below);
    case _ =>
  }

  ghost predicate Agree(fields: seq<Field>, others: seq<Field>, below: Relation<string>) {
    forall i, j, name :: Entry(fields, name, i) && Entry(others, name, j) ==>
      Normal(fields[i].value, below) == Normal(others[j].value, below)
  }

  lemma NormalFieldsCarryOver(fields: seq<Field>, others: seq<Field>, below: Relation<string>, f: Field)
    requires UniqueNames(fields) && UniqueNames(others) && MapOf(fields) == MapOf(others)
    requires Agree(fields, others, below) && f in NormalFields(fields, below)
    ensures f in NormalFields(others, below)
  {
    NormalFieldsAre(fields, below, f);
    NormalFieldsAre(others, below, f);
    Lookup(fields, f.name);
    Lookup(others, f.name);
    var i :| Entry(fields, f.name, i) && f.value == Normal(fields[i].value, below);
    var j :| Entry(others, f.name, j);
    assert Normal(fields[i].value, below) == Normal(others[j].value, below);
  }

  lemma SameMapSameNormal(fields: seq<Field>, others: seq<Field>, below: Relation<string>)
    requires UniqueNames(fields) && UniqueNames(others) && MapOf(fields) == MapOf(others) && Agree(fields, others, below)
    requires TotalPreorder(below) && PresentUntied(fields, below)
    ensures Sort(NormalFields(fields, below), ByName(below)) == Sort(NormalFields(others, below), ByName(below))
  {
    var xs, ys := NormalFields(fields, below), NormalFields(others, below);
    NormalFieldsKeepNamesUnique(fields, below);
    NormalFieldsKeepNamesUnique(others, below);
    forall f ensures f in xs <==> f in ys {
      if f in xs { NormalFieldsCarryOver(fields, others, below, f); }
      if f in ys { NormalFieldsCarryOver(others, fields, below, f); }
    }
    NormalFieldsTieAsNames(fields, below);
    SameFieldsSameOrder(xs, ys, below);
  }

  lemma SameFieldsSameOrder(xs: seq<Field>, ys: seq<Field>, below: Relation<string>)
    requires UniqueNames(xs) && UniqueNames(ys) && SameElements(xs, ys)
    requires TotalPreorder(below) && Untied(xs, ByName(below))
    ensures Sort(xs, ByName(below)) == Sort(ys, ByName(below))
  {
    UniqueNamesAreUnique(xs);
    UniqueNamesAreUnique(ys);
    UniqueSameElements(xs, ys);
    NamesOrderFields(below);
    var sx, sy := Sort(xs, ByName(below)), Sort(ys, ByName(below));
    SortPermutes(xs, ByName(below));
    SortPermutes(ys, ByName(below));
    SortOrders(xs, ByName(below));
    SortOrders(ys, ByName(below));
    SameMembers(sx, xs);
    UntiedElements(xs, sx, ByName(below));
    OrderFixesTheList(sx, sy, ByName(below));
  }

  /** The text of a value without ties is the text of exactly the values that mean the same. */
  lemma EqualTextExactlyForEqualMeaning(v: Json, w: Json, below: Relation<string>)
    requires Sound(v) && Legible(v) && Sound(w) && Legible(w) && v != Absent && w != Absent
    requires TotalPreorder(below) && NamesUntied(v, below)
    ensures CanonicalText(v, below) == CanonicalText(w, below) <==> Meaning(v) == Meaning(w)
  {
    if Meaning(v) == Meaning(w) {
      SameMeaningSameNormal(v, w, below);
      TextOfNormal(v, below);
      TextOfNormal(w, below);
    }
    if CanonicalText(v, below) == CanonicalText(w, below) { EqualTextMeansEqual(v, w, below); }
  }

  /** Equal texts never confuse two meanings, ties or not. */
  lemma EqualTextMeansEqual(v: Json, w: Json, below: Relation<string>)
    requires Sound(v) && Legible(v) && Sound(w) && Legible(w) && v != Absent && w != Absent
    requires CanonicalText(v, below) == CanonicalText(w, below)
    ensures Normal(v, below) == Normal(w, below) && Meaning(v) == Meaning(w)
  {
    CanonicalTextIsReadBack(v, below);
    CanonicalTextIsReadBack(w, below);
    NormalKeepsMeaning(v, below);
    NormalKeepsMeaning(w, below);
  }

  // ---------------------------------------------------------------------------
  // A value with a tie has another text
  // ---------------------------------------------------------------------------

  lemma {:induction false} NormalFieldsOfConcat(a: seq<Field>, b: seq<Field>, below: Relation<string>)
    ensures NormalFields(a + b, below) == NormalFields(a, below) + NormalFields(b, below)
    decreases |a|
  {
    if a == [] {
      assert a + b == b;
    } else {
      NormalFieldsOfConcat(a[1..], b, below);
      assert (a + b)[1..] == a[1..] + b;
    }
  }

  lemma ReversedTail<T>(xs: seq<T>)
    requires xs != []
    ensures Reversed(xs) == Reversed(xs[1..]) + [xs[0]]
  {}

  lemma {:induction false} NormalFieldsOfReversed(fields: seq<Field>, below: Relation<string>)
    ensures NormalFields(Reversed(fields), below) == Reversed(NormalFields(fields, below))
    decreases |fields|
  {
    if fields != [] {
      var f := fields[0];
      ReversedTail(fields);
      NormalFieldsOfConcat(Reversed(fields[1..]), [f], below);
      NormalFieldsOfReversed(fields[1..], below);
      assert [f][1..] == [];
      if f.value != Absent { ReversedTail(NormalFields(fields, below)); }
    }
  }

  /** What a reordering of a value keeps, and that its text differs. */
  ghost predicate Rewrites(w: Json, v: Json, below: Relation<string>) {
    w != Absent && Sound(w) && (Legible(v) ==> Legible(w)) && Meaning(w) == Meaning(v) && Normal(w, below) != Normal(v, below)
  }

  lemma ReversedMeaning(fields: seq<Field>)
    requires UniqueNames(fields)
    ensures UniqueNames(Reversed(fields)) && MapOf(Reversed(fields)) == MapOf(fields)
  {
    var others, n := Reversed(fields), |fields|;
    forall i, name | Entry(fields, name, i) ensures exists j :: Entry(others, name, j) && Meaning(others[j].value) == Meaning(fields[i].value) {
      assert Entry(others, name, n - 1 - i);
    }
    forall j, name | Entry(others, name, j) ensures exists i :: Entry(fields, name, i) {
      assert Entry(fields, name, n - 1 - j);
    }
    SameEntriesSameMap(fields, others);
  }

  lemma ReversedNormal(fields: seq<Field>, below: Relation<string>)
    requires UniqueNames(fields) && TotalPreorder(below) && !PresentUntied(fields, below)
    ensures Normal(Object(Reversed(fields)), below) != Normal(Object(fields), below)
  {
    NormalFieldsOfReversed(fields, below);
    NormalFieldsKeepNamesUnique(fields, below);
    UniqueNamesAreUnique(NormalFields(fields, below));
    NamesOrderFields(below);
    NormalFieldsTieAsNames(fields, below);
    SortForgetsOrderExactlyWithoutTies(NormalFields(fields, below), ByName(below));
  }

  lemma ReversedRewrites(fields: seq<Field>, below: Relation<string>)
    requires Sound(Object(fields)) && TotalPreorder(below) && !PresentUntied(fields, below)
    ensures Rewrites(Object(Reversed(fields)), Object(fields), below)
  {
    ReversedMeaning(fields);
    ReversedNormal(fields, below);
  }

  lemma ItemRewrites(items: seq<Json>, i: int, w: Json, below: Relation<string>)
    requires Sound(Array(items)) && 0 <= i < |items| && items[i] != Absent && Rewrites(w, items[i], below)
    ensures Rewrites(Array(items[i := w]), Array(items), below)
  {
    var others := items[i := w];
    assert Meanings(others) == Meanings(items);
    assert NormalItems(others, below)[i] != NormalItems(items, below)[i];
  }

  lemma FieldRewritesMeaning(fields: seq<Field>, i: int, w: Json, below: Relation<string>)
    requires Sound(Object(fields)) && 0 <= i < |fields| && fields[i].value != Absent && Rewrites(w, fields[i].value, below)
    ensures var others := fields[i := Field(fields[i].name, w)];
            Sound(Object(others)) && (Legible(Object(fields)) ==> Legible(Object(others))) && MapOf(others) == MapOf(fields)
  {
    var others := fields[i := Field(fields[i].name, w)];
    assert UniqueNames(others);
    assert LegibleField(fields[i]) ==> LegibleField(others[i]);
    forall k, name | Entry(fields, name, k)
      ensures exists j :: Entry(others, name, j) && Meaning(others[j].value) == Meaning(fields[k].value)
    {
      assert Entry(others, name, k);
    }
    forall k, name | Entry(others, name, k) ensures exists j :: Entry(fields, name, j) {
      assert Entry(fields, name, k);
    }
    SameEntriesSameMap(fields, others);
  }

  lemma FieldRewrites(fields: seq<Field>, i: int, w: Json, below: Relation<string>)
    requires Sound(Object(fields)) && 0 <= i < |fields| && fields[i].value != Absent && Rewrites(w, fields[i].value, below)
    ensures Rewrites(Object(fields[i := Field(fields[i].name, w)]), Object(fields), below)
  {
    var name := fields[i].name;
    var others := fields[i := Field(name, w)];
    FieldRewritesMeaning(fields, i, w, below);
    var f, g := Field(name, Normal(fields[i].value, below)), Field(name, Normal(w, below));
    assert Entry(fields, name, i) && Entry(others, name, i);
    NormalFieldsAre(fields, below, f);
    NormalFieldsAre(others, below, g);
    NormalFieldsKeepNamesUnique(fields, below);
    NormalFieldsKeepNamesUnique(others, below);
    SortKeepsNamesUnique(NormalFields(fields, below), ByName(below));
    SortKeepsNamesUnique(NormalFields(others, below), ByName(below));
    UniqueNamesAreUnique(Sort(NormalFields(fields, below), ByName(below)));
    assert f in Sort(NormalFields(fields, below), ByName(below)) && g in Sort(NormalFields(others, below), ByName(below));
  }

  lemma {:induction false} TiesRewrite(v: Json, below: Relation<string>) returns (w: Json)
    requires Sound(v) && TotalPreorder(below) && !NamesUntied(v, below)
    ensures Rewrites(w, v, below)
    decreases v
  {
    match v
    case Array(items) =>
      var i :| 0 <= i < |items| && !NamesUntied(items[i], below);
      var x := TiesRewrite(items[i], below);
      ItemRewrites(items, i, x, below);
      w := Array(items[i := x]);
    case Object(fields) =>
      if PresentUntied(fields, below) {
        var i :| 0 <= i < |fields| && !FieldUntied(fields[i], below);
        assert fields[i].value < fields[i];
        assert SoundField(fields[i]);
        var x := TiesRewrite(fields[i].value, below);
        FieldRewrites(fields, i, x, below);
        w := Object(fields[i := Field(fields[i].name, x)]);
      } else {
        ReversedRewrites(fields, below);
        w := Object(Reversed(fields));
      }
  }

  /** A value that means the same and has another text. */
  ghost predicate OtherText(w: Json, v: Json, below: Relation<string>) {
    Sound(w) && Legible(w) && w != Absent && Meaning(w) == Meaning(v) && CanonicalText(w, below) != CanonicalText(v, below)
  }

  lemma RewritingHasOtherText(w: Json, v: Json, below: Relation<string>)
    requires Sound(v) && Legible(v) && v != Absent && Rewrites(w, v, below)
    ensures OtherText(w, v, below)
  {
    CanonicalTextIsReadBack(v, below);
    CanonicalTextIsReadBack(w, below);
  }

  /** Some value means the same and has another text exactly when an object in the value has two present names that tie. */
  lemma EntryOrderIsIgnoredExactlyWithoutTies(v: Json, below: Relation<string>)
    requires Sound(v) && Legible(v) && v != Absent && TotalPreorder(below)
    ensures (forall w :: !OtherText(w, v, below)) <==> NamesUntied(v, below)
  {
    if NamesUntied(v, below) {
      forall w ensures !OtherText(w, v, below) {
        if Sound(w) && Legible(w) && w != Absent { EqualTextExactlyForEqualMeaning(v, w, below); }
      }
    } else {
      var w := TiesRewrite(v, below);
      RewritingHasOtherText(w, v, below);
    }
  }

  // ---------------------------------------------------------------------------
  // Undefined in arrays
  // ---------------------------------------------------------------------------

  /** The value with every array of one undefined item emptied. */
  ghost function Emptied(value: Json): (r: Json)
    ensures r == Absent <==> value == Absent
    decreases value
  {
    match value
    case Array(items) => if items == [Absent] then Array([]) else Array(EmptiedItems(items))
    case Object(fields) => Object(EmptiedFields(fields))
    case _ => value
  }

  ghost function EmptiedItems(items: seq<Json>): (r: seq<Json>)
    ensures |r| == |items| && forall i :: 0 <= i < |items| ==> r[i] == Emptied(items[i])
    decreases items
  {
    if items == [] then [] else [Emptied(items[0])] + EmptiedItems(items[1..])
  }

  ghost function EmptiedFields(fields: seq<Field>): (r: seq<Field>)
    ensures |r| == |fields| && forall i :: 0 <= i < |fields| ==> r[i] == EmptiedField(fields[i])
    decreases fields
  {
    if fields == [] then [] else [EmptiedField(fields[0])] + EmptiedFields(fields[1..])
  }

  ghost function EmptiedField(field: Field): Field
    decreases field
  {
    Field(field.name, Emptied(field.value))
  }

  lemma {:induction false} EmptiedIsLegible(value: Json)
    requires Sound(value)
    ensures Sound(Emptied(value)) && Legible(Emptied(value))
    decreases value
  {
    match value
    case Array(items) =>
      forall i | 0 <= i < |items| ensures Sound(Emptied(items[i])) && Legible(Emptied(items[i])) { EmptiedIsLegible(items[i]); }
      assert |items| == 1 ==> items == [items[0]] && EmptiedItems(items)[0] == Emptied(items[0]);
    case Object(fields) =>
      var others := EmptiedFields(fields);
      forall i | 0 <= i < |fields| ensures SoundField(others[i]) && LegibleField(others[i]) {
        assert fields[i].value < fields[i];
        assert SoundField(fields[i]);
        EmptiedIsLegible(fields[i].value);
      }
      assert UniqueNames(others);
    case _ =>
  }

  lemma {:induction false} EmptiedHasTheText(value: Json, below: Relation<string>)
    ensures CanonicalText(Emptied(value), below) == CanonicalText(value, below)
    decreases value
  {
    match value
    case Array(items) =>
      if items == [Absent] {
        assert Texts(items, below) == [""];
      } else {
        EmptiedTexts(items, below);
      }
    case Object(fields) => EmptiedMembers(fields, below);
    case _ =>
  }

  lemma {:induction false} EmptiedTexts(items: seq<Json>, below: Relation<string>)
    ensures Texts(EmptiedItems(items), below) == Texts(items, below)
    decreases items
  {
    if items != [] {
      EmptiedHasTheText(items[0], below);
      EmptiedTexts(items[1..], below);
      assert EmptiedItems(items)[1..] == EmptiedItems(items[1..]);
    }
  }

  lemma {:induction false} EmptiedMembers(fields: seq<Field>, below: Relation<string>)
    ensures Members(EmptiedFields(fields), below) == Members(fields, below)
    decreases fields
  {
    if fields != [] {
      assert fields[0].value < fields[0];
      EmptiedHasTheText(fields[0].value, below);
      EmptiedMembers(fields[1..], below);
      assert EmptiedFields(fields)[1..] == EmptiedFields(fields[1..]);
    }
  }

  lemma {:induction false} EmptiedMeansAnother(value: Json)
    requires Sound(value) && !Legible(value)
    ensures Meaning(Emptied(value)) != Meaning(value)
    decreases value
  {
    match value
    case Array(items) =>
      if items == [Absent] {
        assert |Meanings(items)| == 1;
      } else {
        var i :| 0 <= i < |items| && !Legible(items[i]);
        EmptiedMeansAnother(items[i]);
        assert Meanings(EmptiedItems(items))[i] != Meanings(items)[i];
      }
    case Object(fields) =>
      var i :| 0 <= i < |fields| && !LegibleField(fields[i]);
      var others, name := EmptiedFields(fields), fields[i].name;
      assert fields[i].value < fields[i];
      assert SoundField(fields[i]);
      EmptiedMeansAnother(fields[i].value);
      assert UniqueNames(others);
      assert Entry(fields, name, i) && Entry(others, name, i);
      Lookup(fields, name);
      Lookup(others, name);
  }

  /** A value that means something else and has the same text. */
  ghost predicate Shares(w: Json, value: Json, below: Relation<string>) {
    Sound(w) && Legible(w) && w != Absent && Meaning(w) != Meaning(value) && CanonicalText(w, below) == CanonicalText(value, below)
  }

  /** The text stands for another value as well exactly when some array in the value holds undefined and nothing else. */
  lemma AbsentItemsAreLost(value: Json, below: Relation<string>)
    requires Sound(value) && value != Absent
    ensures (exists w :: Shares(w, value, below)) <==> !Legible(value)
  {
    if Legible(value) {
      forall w ensures !Shares(w, value, below) {
        if Sound(w) && Legible(w) && w != Absent && CanonicalText(w, below) == CanonicalText(value, below) {
          EqualTextMeansEqual(w, value, below);
        }
      }
    } else {
      EmptiedIsLegible(value);
      EmptiedHasTheText(value, below);
      EmptiedMeansAnother(value);
      assert Shares(Emptied(value), value, below);
    }
  }
}
