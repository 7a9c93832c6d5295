/**
 What the manifest digest of apps/cli/src/iac/manifest.ts is taken of: the canonical text of the JSON value
 of the canonical manifest. Two manifests have one such text exactly when they say the same.
 */
module ManifestDigest {
  import opened Commons
  import opened Sorting
  import opened CanonicalManifest
  import Json = CanonicalJson
  import JsonReader

  // ---------------------------------------------------------------------------
  // Objects with given keys
  // ---------------------------------------------------------------------------

  /** An object with these keys; None leaves its key out. */
  function Entered(keys: seq<string>, values: seq<Option<Value>>): Fields
    requires |keys| == |values|
  {
    if keys == [] then map[]
    else
      var others := Entered(keys[1..], values[1..]);
      if values[0].None? then others else others[keys[0] := values[0].value]
  }

  lemma {:induction false} EnteredAt(keys: seq<string>, values: seq<Option<Value>>, k: string)
    requires |keys| == |values| && Unique(keys)
    ensures k in Entered(keys, values) ==> k in keys
    ensures forall i :: 0 <= i < |keys| && keys[i] == k ==>
              (k in Entered(keys, values) <==> values[i].Some?) && (values[i].Some? ==> Entered(keys, values)[k] == values[i].value)
  {
    if keys != [] {
      EnteredAt(keys[1..], values[1..], k);
      forall i | 1 <= i < |keys| ensures keys[1..][i - 1] == keys[i] && values[1..][i - 1] == values[i] && keys[i] != keys[0] {}
      assert keys[0] !in keys[1..];
    }
  }

  lemma EnteredIsInjective(keys: seq<string>, values: seq<Option<Value>>, others: seq<Option<Value>>)
    requires |keys| == |values| == |others| && Unique(keys) && Entered(keys, values) == Entered(keys, others)
    ensures values == others
  {
    forall i | 0 <= i < |keys| ensures values[i] == others[i] {
      EnteredAt(keys, values, keys[i]);
      EnteredAt(keys, others, keys[i]);
    }
  }

  ghost predicate Apart(rest: Fields, keys: seq<string>) {
    forall k :: k in rest ==> k !in keys
  }

  /** The copied entries and the entries of the form. */
  function Spread(rest: Fields, keys: seq<string>, values: seq<Option<Value>>): Value
    requires |keys| == |values|
  {
    Json.VObject(rest + Entered(keys, values))
  }

  lemma SpreadIsInjective(rest: Fields, rest': Fields, keys: seq<string>, values: seq<Option<Value>>, others: seq<Option<Value>>)
    requires |keys| == |values| == |others| && Unique(keys) && Apart(rest, keys) && Apart(rest', keys)
    requires Spread(rest, keys, values) == Spread(rest', keys, others)
    ensures rest == rest' && values == others
  {
    var own, own' := Entered(keys, values), Entered(keys, others);
    var whole, whole' := rest + own, rest' + own';
    assert whole == whole';
    forall k ensures k in own ==> k in keys { EnteredAt(keys, values, k); }
    forall k ensures k in own' ==> k in keys { EnteredAt(keys, others, k); }
    assert rest == map k | k in whole && k !in keys :: whole[k];
    assert rest' == map k | k in whole' && k !in keys :: whole'[k];
    assert own == map k | k in whole && k in keys :: whole[k];
    assert own' == map k | k in whole' && k in keys :: whole'[k];
    EnteredIsInjective(keys, values, others);
  }

  function Strings(names: Names): Option<Value> {
    Some(Json.VArray(seq(|OrEmpty(names)|, i requires 0 <= i < |OrEmpty(names)| => Json.VString(OrEmpty(names)[i]))))
  }

  lemma StringsAreInjective(a: Names, b: Names)
    requires Strings(a) == Strings(b)
    ensures OrEmpty(a) == OrEmpty(b)
  {
    var xs, ys := Strings(a).value.items, Strings(b).value.items;
    assert |xs| == |ys|;
    forall i | 0 <= i < |OrEmpty(a)| ensures OrEmpty(a)[i] == OrEmpty(b)[i] {
      assert xs[i] == ys[i];
    }
  }

  // ---------------------------------------------------------------------------
  // Objects from records
  // ---------------------------------------------------------------------------

  function RecordMap<V>(records: seq<Named<V>>, valueOf: V -> Value): Fields {
    if records == [] then map[] else RecordMap(records[1..], valueOf)[records[0].name := valueOf(records[0].value)]
  }

  lemma {:induction false} RecordMapAt<V>(records: seq<Named<V>>, valueOf: V -> Value, name: string)
    requires UniqueNames(records)
    ensures name in RecordMap(records, valueOf) <==> HasName(records, name)
    ensures forall i :: 0 <= i < |records| && records[i].name == name ==> RecordMap(records, valueOf)[name] == valueOf(records[i].value)
    decreases |records|
  {
    if records != [] {
      RecordMapAt(records[1..], valueOf, name);
      if HasName(records[1..], name) {
        var i :| 0 <= i < |records[1..]| && records[1..][i].name == name;
        assert records[i + 1].name == name;
      }
      forall i | 1 <= i < |records| ensures records[1..][i - 1] == records[i] {}
    }
  }

  function RecordsValue<V>(records: Record<V>, valueOf: V -> Value): Option<Value> {
    Some(Json.VObject(RecordMap(OrEmpty(records), valueOf)))
  }

  lemma SortedHasNames<V(!new)>(xs: seq<Named<V>>, below: Relation<Named<V>>, name: string)
    requires UniqueNames(xs)
    ensures HasName(Sort(xs, below), name) <==> HasName(xs, name)
  {
    SortedElements(xs, below);
    var sorted := Sort(xs, below);
    if HasName(xs, name) {
      var i :| 0 <= i < |xs| && xs[i].name == name;
      assert xs[i] in sorted;
    }
    if HasName(sorted, name) {
      var i :| 0 <= i < |sorted| && sorted[i].name == name;
      assert sorted[i] in xs;
    }
  }

  lemma SortedMapAt<V(!new)>(xs: seq<Named<V>>, below: Relation<Named<V>>, valueOf: V -> Value, i: int)
    requires UniqueNames(xs) && 0 <= i < |xs|
    ensures xs[i].name in RecordMap(Sort(xs, below), valueOf)
    ensures RecordMap(Sort(xs, below), valueOf)[xs[i].name] == valueOf(xs[i].value)
  {
    SortedElements(xs, below);
    assert xs[i] in Sort(xs, below);
    RecordMapAt(Sort(xs, below), valueOf, xs[i].name);
  }

  ghost predicate FromValues<V>(a: seq<Named<V>>, b: seq<Named<V>>, transform: V -> V, same: (V, V) -> bool, valueOf: V -> Value) {
    forall i, j :: 0 <= i < |a| && 0 <= j < |b| && valueOf(transform(a[i].value)) == valueOf(transform(b[j].value)) ==>
      same(a[i].value, b[j].value)
  }

  /** Equal values of two canonical sections come from the same names and, name by name, from equal values. */
  lemma SectionFromValue<V(!new)>(a: Record<V>, b: Record<V>, transform: V -> V, same: (V, V) -> bool, valueOf: V -> Value, rules: Rules)
    requires UniqueNames(OrEmpty(a)) && UniqueNames(OrEmpty(b))
    requires RecordsValue(CanonicalRecords(a, transform, rules), valueOf) == RecordsValue(CanonicalRecords(b, transform, rules), valueOf)
    requires FromValues(OrEmpty(a), OrEmpty(b), transform, same, valueOf)
    ensures SameSection(a, b, same)
  {
    var xs, ys := Transformed(OrEmpty(a), transform), Transformed(OrEmpty(b), transform);
    var below := ByName<V>(rules.below);
    assert RecordMap(Sort(xs, below), valueOf) == RecordMap(Sort(ys, below), valueOf);
    forall name ensures HasName(OrEmpty(a), name) <==> HasName(OrEmpty(b), name) {
      SortedHasNames(xs, below, name);
      SortedHasNames(ys, below, name);
      SortedElements(xs, below);
      SortedElements(ys, below);
      RecordMapAt(Sort(xs, below), valueOf, name);
      RecordMapAt(Sort(ys, below), valueOf, name);
      TransformedNames(OrEmpty(a), transform, name);
      TransformedNames(OrEmpty(b), transform, name);
    }
    forall i, j | 0 <= i < |OrEmpty(a)| && 0 <= j < |OrEmpty(b)| && OrEmpty(a)[i].name == OrEmpty(b)[j].name
      ensures same(OrEmpty(a)[i].value, OrEmpty(b)[j].value)
    {
      SortedMapAt(xs, below, valueOf, i);
      SortedMapAt(ys, below, valueOf, j);
    }
  }

  lemma TransformedNames<V>(xs: seq<Named<V>>, transform: V -> V, name: string)
    ensures HasName(Transformed(xs, transform), name) <==> HasName(xs, name)
  {
    if HasName(xs, name) {
      var i :| 0 <= i < |xs| && xs[i].name == name;
      assert Transformed(xs, transform)[i].name == name;
    }
  }

  // ---------------------------------------------------------------------------
  // The JSON value of a manifest
  // ---------------------------------------------------------------------------

  const PROVIDER_KEYS := ["allowedScopes", "defaultScopes"]
  const ATLASSIAN_KEYS := ["allowedScopes", "defaultScopes", "products", "allowedCloudIds"]
  const CONNECTOR_KEYS := ["requiredScopes", "provider"]
  const RESOURCE_KEYS := ["skillDiscoveryEnabled", "requestPrefixes", "scopes"]
  const SKILL_KEYS := ["content", "requiredScopes"]
  const MACHINE_KEYS := ["publicKeys", "resources", "scopes"]
  const EMAIL_KEYS := ["email", "scopes"]
  const GROUP_KEYS := ["scopes"]
  const CLI_KEYS := ["logoUrl", "darkLogoUrl"]
  const MANIFEST_KEYS := ["apiVersion", "workspace", "cli", "connectors", "scopes", "resources", "skills", "machines",
                          "emailAssignments", "groupAssignments"]

  lemma KeysAreUnique()
    ensures Unique(PROVIDER_KEYS) && Unique(ATLASSIAN_KEYS) && Unique(CONNECTOR_KEYS) && Unique(RESOURCE_KEYS)
    ensures Unique(SKILL_KEYS) && Unique(MACHINE_KEYS) && Unique(EMAIL_KEYS) && Unique(GROUP_KEYS) && Unique(CLI_KEYS)
  {
    assert "allowedScopes"[0] != "defaultScopes"[0];
  }

  lemma ManifestKeysAreUnique()
    ensures Unique(MANIFEST_KEYS)
  {
    assert "apiVersion"[0] != "connectors"[0] && "workspace"[0] != "resources"[0];
    assert "scopes"[1] != "skills"[1] && "emailAssignments"[0] != "groupAssignments"[0];
  }

  function ProviderValue(p: Provider): Value {
    match p
    case Atlassian(rest, allowed, defaults, products, sites) =>
      Spread(rest, ATLASSIAN_KEYS, [Strings(allowed), Strings(defaults), Strings(products), Strings(sites)])
    case OtherProvider(rest, allowed, defaults) => Spread(rest, PROVIDER_KEYS, [Strings(allowed), Strings(defaults)])
  }

  function ConnectorValue(): Connector -> Value {
    (c: Connector) => Spread(c.rest, CONNECTOR_KEYS, [Strings(c.requiredScopes), Some(ProviderValue(c.provider))])
  }

  function ScopeValue(): Value -> Value {
    (v: Value) => v
  }

  function ResourceValue(): Resource -> Value {
    (r: Resource) => Spread(r.rest, RESOURCE_KEYS,
                            [Some(Json.VBoolean(r.skillDiscoveryEnabled == Some(true))), Strings(r.requestPrefixes), Strings(r.scopes)])
  }

  function SkillValue(): Skill -> Value {
    (s: Skill) => Spread(s.rest, SKILL_KEYS, [Some(Json.VString(s.content)), Strings(s.requiredScopes)])
  }

  function MachineValue(): Machine -> Value {
    (m: Machine) => Spread(m.rest, MACHINE_KEYS, [RecordsValue(m.publicKeys, ScopeValue()), Strings(m.resources), Strings(m.scopes)])
  }

  function EmailValue(): EmailAssignment -> Value {
    (e: EmailAssignment) => Spread(e.rest, EMAIL_KEYS, [Some(Json.VString(e.email)), Strings(e.scopes)])
  }

  function GroupValue(): GroupAssignment -> Value {
    (g: GroupAssignment) => Spread(g.rest, GROUP_KEYS, [Strings(g.scopes)])
  }

  function CliValue(cli: Option<Cli>): Option<Value> {
    if cli.None? then None else Some(Spread(cli.value.unknown, CLI_KEYS, [Some(cli.value.logoUrl), cli.value.darkLogoUrl]))
  }

  function TopValues(m: Manifest): seq<Option<Value>> {
    [Some(m.apiVersion), Some(m.workspace), CliValue(m.cli),
     if m.connectors.None? then None else RecordsValue(m.connectors, ConnectorValue()),
     RecordsValue(m.scopes, ScopeValue()), RecordsValue(m.resources, ResourceValue()), RecordsValue(m.skills, SkillValue()),
     RecordsValue(m.machines, MachineValue()), RecordsValue(m.emailAssignments, EmailValue()),
     RecordsValue(m.groupAssignments, GroupValue())]
  }

  function ManifestValue(m: Manifest): Value {
    Spread(map[], MANIFEST_KEYS, TopValues(m))
  }

  // ---------------------------------------------------------------------------
  // Equal values say the same
  // ---------------------------------------------------------------------------

  /** The copied entries are not those of the form, and the type says which provider it is. */
  ghost predicate SoundConnector(c: Connector) {
    Apart(c.rest, CONNECTOR_KEYS) && Apart(c.provider.rest, if c.provider.Atlassian? then ATLASSIAN_KEYS else PROVIDER_KEYS)
    && (c.provider.Atlassian? <==> "type" in c.rest && c.rest["type"] == Json.VString("atlassian"))
  }

  ghost predicate SoundValues(m: Manifest) {
    && (forall i :: 0 <= i < |OrEmpty(m.connectors)| ==> SoundConnector(OrEmpty(m.connectors)[i].value))
    && (forall i :: 0 <= i < |OrEmpty(m.resources)| ==> Apart(OrEmpty(m.resources)[i].value.rest, RESOURCE_KEYS))
    && (forall i :: 0 <= i < |OrEmpty(m.skills)| ==> Apart(OrEmpty(m.skills)[i].value.rest, SKILL_KEYS))
    && (forall i :: 0 <= i < |OrEmpty(m.machines)| ==> Apart(OrEmpty(m.machines)[i].value.rest, MACHINE_KEYS))
    && (forall i :: 0 <= i < |OrEmpty(m.emailAssignments)| ==> Apart(OrEmpty(m.emailAssignments)[i].value.rest, EMAIL_KEYS))
    && (forall i :: 0 <= i < |OrEmpty(m.groupAssignments)| ==> Apart(OrEmpty(m.groupAssignments)[i].value.rest, GROUP_KEYS))
  }

  lemma SetFromValue(a: Names, b: Names, rules: Rules)
    requires TotalPreorder(rules.below) && Strings(ScopeSet(a, rules)) == Strings(ScopeSet(b, rules))
    ensures SameSet(a, b)
  {
    StringsAreInjective(ScopeSet(a, rules), ScopeSet(b, rules));
    SetsExactly(a, b, rules);
  }

  lemma CodeUnitSetFromValue(a: Names, b: Names)
    requires Strings(CodeUnitSet(a)) == Strings(CodeUnitSet(b))
    ensures SameSet(a, b)
  {
    StringsAreInjective(CodeUnitSet(a), CodeUnitSet(b));
    CodeUnitSetsExactly(a, b);
  }

  lemma ProviderFromValue(a: Provider, b: Provider, rules: Rules)
    requires TotalPreorder(rules.below) && (a.Atlassian? <==> b.Atlassian?)
    requires var keys := if a.Atlassian? then ATLASSIAN_KEYS else PROVIDER_KEYS; Apart(a.rest, keys) && Apart(b.rest, keys)
    requires ProviderValue(ProviderForm(a, rules)) == ProviderValue(ProviderForm(b, rules))
    ensures SameProvider(a, b)
  {
    KeysAreUnique();
    if a.Atlassian? {
      var p, q := ProviderForm(a, rules), ProviderForm(b, rules);
      var xs := [Strings(p.allowedScopes), Strings(p.defaultScopes), Strings(p.products), Strings(p.allowedCloudIds)];
      var ys := [Strings(q.allowedScopes), Strings(q.defaultScopes), Strings(q.products), Strings(q.allowedCloudIds)];
      SpreadIsInjective(a.rest, b.rest, ATLASSIAN_KEYS, xs, ys);
      assert xs[0] == ys[0] && xs[1] == ys[1] && xs[2] == ys[2] && xs[3] == ys[3];
      CodeUnitSetFromValue(a.products, b.products);
      CodeUnitSetFromValue(a.allowedCloudIds, b.allowedCloudIds);
    } else {
      var xs := [Strings(ScopeSet(a.allowedScopes, rules)), Strings(ScopeSet(a.defaultScopes, rules))];
      var ys := [Strings(ScopeSet(b.allowedScopes, rules)), Strings(ScopeSet(b.defaultScopes, rules))];
      SpreadIsInjective(a.rest, b.rest, PROVIDER_KEYS, xs, ys);
      assert xs[0] == ys[0] && xs[1] == ys[1];
    }
    SetFromValue(a.allowedScopes, b.allowedScopes, rules);
    SetFromValue(a.defaultScopes, b.defaultScopes, rules);
  }

  lemma ConnectorFromValue(a: Connector, b: Connector, rules: Rules)
    requires TotalPreorder(rules.below) && SoundConnector(a) && SoundConnector(b)
    requires ConnectorValue()(ConnectorForm(rules)(a)) == ConnectorValue()(ConnectorForm(rules)(b))
    ensures SameConnector(a, b)
  {
    KeysAreUnique();
    var xs := [Strings(ScopeSet(a.requiredScopes, rules)), Some(ProviderValue(ProviderForm(a.provider, rules)))];
    var ys := [Strings(ScopeSet(b.requiredScopes, rules)), Some(ProviderValue(ProviderForm(b.provider, rules)))];
    SpreadIsInjective(a.rest, b.rest, CONNECTOR_KEYS, xs, ys);
    assert xs[0] == ys[0] && xs[1] == ys[1];
    ProviderFromValue(a.provider, b.provider, rules);
    SetFromValue(a.requiredScopes, b.requiredScopes, rules);
  }

  lemma ResourceFromValue(a: Resource, b: Resource, rules: Rules)
    requires TotalPreorder(rules.below) && Apart(a.rest, RESOURCE_KEYS) && Apart(b.rest, RESOURCE_KEYS)
    requires ResourceValue()(ResourceForm(rules)(a)) == ResourceValue()(ResourceForm(rules)(b))
    ensures SameResource(a, b)
  {
    KeysAreUnique();
    var x, y := ResourceForm(rules)(a), ResourceForm(rules)(b);
    var xs := [Some(Json.VBoolean(x.skillDiscoveryEnabled == Some(true))), Strings(x.requestPrefixes), Strings(x.scopes)];
    var ys := [Some(Json.VBoolean(y.skillDiscoveryEnabled == Some(true))), Strings(y.requestPrefixes), Strings(y.scopes)];
    SpreadIsInjective(a.rest, b.rest, RESOURCE_KEYS, xs, ys);
    assert xs[0] == ys[0] && xs[1] == ys[1] && xs[2] == ys[2];
    SetFromValue(a.requestPrefixes, b.requestPrefixes, rules);
    SetFromValue(a.scopes, b.scopes, rules);
  }

  lemma SkillFromValue(a: Skill, b: Skill, rules: Rules)
    requires TotalPreorder(rules.below) && Apart(a.rest, SKILL_KEYS) && Apart(b.rest, SKILL_KEYS)
    requires SkillValue()(SkillForm(rules)(a)) == SkillValue()(SkillForm(rules)(b))
    ensures SameSkill(a, b, rules)
  {
    KeysAreUnique();
    var xs := [Some(Json.VString(rules.trim(a.content))), Strings(ScopeSet(a.requiredScopes, rules))];
    var ys := [Some(Json.VString(rules.trim(b.content))), Strings(ScopeSet(b.requiredScopes, rules))];
    SpreadIsInjective(a.rest, b.rest, SKILL_KEYS, xs, ys);
    assert xs[0] == ys[0] && xs[1] == ys[1];
    SetFromValue(a.requiredScopes, b.requiredScopes, rules);
  }

  lemma KeysFromValue(a: Record<Value>, b: Record<Value>, rules: Rules)
    requires UniqueNames(OrEmpty(a)) && UniqueNames(OrEmpty(b))
    requires RecordsValue(CanonicalRecords(a, Same(), rules), ScopeValue()) == RecordsValue(CanonicalRecords(b, Same(), rules), ScopeValue())
    ensures SameElements(OrEmpty(a), OrEmpty(b))
  {
    SectionFromValue(a, b, Same(), ValueSame(), ScopeValue(), rules);
    KeysCarryOver(OrEmpty(a), OrEmpty(b));
    KeysCarryOver(OrEmpty(b), OrEmpty(a));
  }

  lemma KeysCarryOver(xs: seq<Named<Value>>, ys: seq<Named<Value>>)
    requires forall name :: HasName(xs, name) <==> HasName(ys, name)
    requires forall i, j :: 0 <= i < |xs| && 0 <= j < |ys| && xs[i].name == ys[j].name ==> xs[i].value == ys[j].value
    ensures forall x :: x in xs ==> x in ys
  {
    forall x | x in xs ensures x in ys {
      var i :| 0 <= i < |xs| && xs[i] == x;
      assert HasName(xs, x.name);
      var j :| 0 <= j < |ys| && ys[j].name == x.name;
      assert ys[j] == x;
    }
  }

  lemma MachineFromValue(a: Machine, b: Machine, rules: Rules)
    requires TotalPreorder(rules.below) && Apart(a.rest, MACHINE_KEYS) && Apart(b.rest, MACHINE_KEYS)
    requires UniqueNames(OrEmpty(a.publicKeys)) && UniqueNames(OrEmpty(b.publicKeys))
    requires MachineValue()(MachineForm(rules)(a)) == MachineValue()(MachineForm(rules)(b))
    ensures SameMachine(a, b)
  {
    KeysAreUnique();
    var x, y := MachineForm(rules)(a), MachineForm(rules)(b);
    var xs := [RecordsValue(x.publicKeys, ScopeValue()), Strings(x.resources), Strings(x.scopes)];
    var ys := [RecordsValue(y.publicKeys, ScopeValue()), Strings(y.resources), Strings(y.scopes)];
    SpreadIsInjective(a.rest, b.rest, MACHINE_KEYS, xs, ys);
    assert xs[0] == ys[0] && xs[1] == ys[1] && xs[2] == ys[2];
    KeysFromValue(a.publicKeys, b.publicKeys, rules);
    SetFromValue(a.resources, b.resources, rules);
    SetFromValue(a.scopes, b.scopes, rules);
  }

  lemma EmailFromValue(a: EmailAssignment, b: EmailAssignment, rules: Rules)
    requires TotalPreorder(rules.below) && Apart(a.rest, EMAIL_KEYS) && Apart(b.rest, EMAIL_KEYS)
    requires EmailValue()(EmailForm(rules)(a)) == EmailValue()(EmailForm(rules)(b))
    ensures SameEmail(a, b, rules)
  {
    KeysAreUnique();
    var xs := [Some(Json.VString(rules.lower(a.email))), Strings(ScopeSet(a.scopes, rules))];
    var ys := [Some(Json.VString(rules.lower(b.email))), Strings(ScopeSet(b.scopes, rules))];
    SpreadIsInjective(a.rest, b.rest, EMAIL_KEYS, xs, ys);
    assert xs[0] == ys[0] && xs[1] == ys[1];
    SetFromValue(a.scopes, b.scopes, rules);
  }

  lemma GroupFromValue(a: GroupAssignment, b: GroupAssignment, rules: Rules)
    requires TotalPreorder(rules.below) && Apart(a.rest, GROUP_KEYS) && Apart(b.rest, GROUP_KEYS)
    requires GroupValue()(GroupForm(rules)(a)) == GroupValue()(GroupForm(rules)(b))
    ensures SameGroup(a, b)
  {
    KeysAreUnique();
    var xs, ys := [Strings(ScopeSet(a.scopes, rules))], [Strings(ScopeSet(b.scopes, rules))];
    SpreadIsInjective(a.rest, b.rest, GROUP_KEYS, xs, ys);
    assert xs[0] == ys[0];
    SetFromValue(a.scopes, b.scopes, rules);
  }

  lemma CliFromValue(a: Option<Cli>, b: Option<Cli>)
    requires a.Some? ==> a.value.unknown == map[]
    requires b.Some? ==> b.value.unknown == map[]
    requires CliValue(a) == CliValue(b)
    ensures SameCli(a, b)
  {
    KeysAreUnique();
    if a.Some? {
      var xs, ys := [Some(a.value.logoUrl), a.value.darkLogoUrl], [Some(b.value.logoUrl), b.value.darkLogoUrl];
      SpreadIsInjective(map[], map[], CLI_KEYS, xs, ys);
      assert xs[0] == ys[0] && xs[1] == ys[1];
    }
  }

  // ---------------------------------------------------------------------------
  // The whole manifest
  // ---------------------------------------------------------------------------

  lemma ConnectorsFromValue(a: Record<Connector>, b: Record<Connector>, rules: Rules)
    requires TotalPreorder(rules.below) && UniqueNames(OrEmpty(a)) && UniqueNames(OrEmpty(b))
    requires forall i :: 0 <= i < |OrEmpty(a)| ==> SoundConnector(OrEmpty(a)[i].value)
    requires forall i :: 0 <= i < |OrEmpty(b)| ==> SoundConnector(OrEmpty(b)[i].value)
    requires RecordsValue(CanonicalRecords(a, ConnectorForm(rules), rules), ConnectorValue())
          == RecordsValue(CanonicalRecords(b, ConnectorForm(rules), rules), ConnectorValue())
    ensures SameSection(a, b, ConnectorSame())
  {
    forall x: Connector, y: Connector | SoundConnector(x) && SoundConnector(y)
                                        && ConnectorValue()(ConnectorForm(rules)(x)) == ConnectorValue()(ConnectorForm(rules)(y))
      ensures SameConnector(x, y)
    {
      ConnectorFromValue(x, y, rules);
    }
    SectionFromValue(a, b, ConnectorForm(rules), ConnectorSame(), ConnectorValue(), rules);
  }

  lemma NoConnectors(a: Record<Connector>, b: Record<Connector>)
    requires OrEmpty(a) == [] && OrEmpty(b) == []
    ensures SameSection(a, b, ConnectorSame())
  {}

  ghost predicate SameForms<V>(a: Record<V>, b: Record<V>, transform: V -> V, valueOf: V -> Value, rules: Rules) {
    RecordsValue(CanonicalRecords(a, transform, rules), valueOf) == RecordsValue(CanonicalRecords(b, transform, rules), valueOf)
  }

  lemma ResourcesFromValue(a: Manifest, b: Manifest, rules: Rules)
    requires TotalPreorder(rules.below) && ValidManifest(a) && ValidManifest(b) && SoundValues(a) && SoundValues(b)
    requires SameForms(a.scopes, b.scopes, Same(), ScopeValue(), rules)
    requires SameForms(a.resources, b.resources, ResourceForm(rules), ResourceValue(), rules)
    requires SameForms(a.skills, b.skills, SkillForm(rules), SkillValue(), rules)
    ensures SameSection(a.scopes, b.scopes, ValueSame()) && SameSection(a.resources, b.resources, ResourceSame())
    ensures SameSection(a.skills, b.skills, SkillSame(rules))
  {
    SectionFromValue(a.scopes, b.scopes, Same(), ValueSame(), ScopeValue(), rules);
    var ra, rb, sa, sb := OrEmpty(a.resources), OrEmpty(b.resources), OrEmpty(a.skills), OrEmpty(b.skills);
    forall i, j | 0 <= i < |ra| && 0 <= j < |rb| && ResourceValue()(ResourceForm(rules)(ra[i].value)) == ResourceValue()(ResourceForm(rules)(rb[j].value))
      ensures SameResource(ra[i].value, rb[j].value)
    {
      ResourceFromValue(ra[i].value, rb[j].value, rules);
    }
    SectionFromValue(a.resources, b.resources, ResourceForm(rules), ResourceSame(), ResourceValue(), rules);
    forall i, j | 0 <= i < |sa| && 0 <= j < |sb| && SkillValue()(SkillForm(rules)(sa[i].value)) == SkillValue()(SkillForm(rules)(sb[j].value))
      ensures SameSkill(sa[i].value, sb[j].value, rules)
    {
      SkillFromValue(sa[i].value, sb[j].value, rules);
    }
    SectionFromValue(a.skills, b.skills, SkillForm(rules), SkillSame(rules), SkillValue(), rules);
  }

  lemma MachinesFromValue(a: Manifest, b: Manifest, rules: Rules)
    requires TotalPreorder(rules.below) && ValidManifest(a) && ValidManifest(b) && SoundValues(a) && SoundValues(b)
    requires SameForms(a.machines, b.machines, MachineForm(rules), MachineValue(), rules)
    ensures SameSection(a.machines, b.machines, MachineSame())
  {
    var ma, mb := OrEmpty(a.machines), OrEmpty(b.machines);
    forall i, j | 0 <= i < |ma| && 0 <= j < |mb| && MachineValue()(MachineForm(rules)(ma[i].value)) == MachineValue()(MachineForm(rules)(mb[j].value))
      ensures SameMachine(ma[i].value, mb[j].value)
    {
      MachineFromValue(ma[i].value, mb[j].value, rules);
    }
    SectionFromValue(a.machines, b.machines, MachineForm(rules), MachineSame(), MachineValue(), rules);
  }

  lemma AssignmentsFromValue(a: Manifest, b: Manifest, rules: Rules)
    requires TotalPreorder(rules.below) && ValidManifest(a) && ValidManifest(b) && SoundValues(a) && SoundValues(b)
    requires SameForms(a.emailAssignments, b.emailAssignments, EmailForm(rules), EmailValue(), rules)
    requires SameForms(a.groupAssignments, b.groupAssignments, GroupForm(rules), GroupValue(), rules)
    ensures SameSection(a.emailAssignments, b.emailAssignments, EmailSame(rules))
    ensures SameSection(a.groupAssignments, b.groupAssignments, GroupSame())
  {
    var ea, eb, ga, gb := OrEmpty(a.emailAssignments), OrEmpty(b.emailAssignments), OrEmpty(a.groupAssignments), OrEmpty(b.groupAssignments);
    forall i, j | 0 <= i < |ea| && 0 <= j < |eb| && EmailValue()(EmailForm(rules)(ea[i].value)) == EmailValue()(EmailForm(rules)(eb[j].value))
      ensures SameEmail(ea[i].value, eb[j].value, rules)
    {
      EmailFromValue(ea[i].value, eb[j].value, rules);
    }
    SectionFromValue(a.emailAssignments, b.emailAssignments, EmailForm(rules), EmailSame(rules), EmailValue(), rules);
    forall i, j | 0 <= i < |ga| && 0 <= j < |gb| && GroupValue()(GroupForm(rules)(ga[i].value)) == GroupValue()(GroupForm(rules)(gb[j].value))
      ensures SameGroup(ga[i].value, gb[j].value)
    {
      GroupFromValue(ga[i].value, gb[j].value, rules);
    }
    SectionFromValue(a.groupAssignments, b.groupAssignments, GroupForm(rules), GroupSame(), GroupValue(), rules);
  }

  lemma TopsMatch(x: Manifest, y: Manifest)
    requires ManifestValue(x) == ManifestValue(y)
    ensures forall k :: 0 <= k < 10 ==> TopValues(x)[k] == TopValues(y)[k]
  {
    ManifestKeysAreUnique();
    SpreadIsInjective(map[], map[], MANIFEST_KEYS, TopValues(x), TopValues(y));
  }

  /** Canonical manifests of one JSON value say the same. */
  lemma EqualValuesSayTheSame(a: Manifest, b: Manifest, rules: Rules)
    requires Proper(rules) && ValidManifest(a) && ValidManifest(b) && SoundValues(a) && SoundValues(b)
    requires ManifestValue(CanonicalServerManifest(a, rules)) == ManifestValue(CanonicalServerManifest(b, rules))
    ensures SameManifest(a, b, rules)
  {
    var x, y := CanonicalServerManifest(a, rules), CanonicalServerManifest(b, rules);
    TopsMatch(x, y);
    var xs, ys := TopValues(x), TopValues(y);
    assert xs[0] == ys[0] && xs[1] == ys[1] && xs[2] == ys[2] && xs[3] == ys[3] && xs[4] == ys[4];
    assert xs[5] == ys[5] && xs[6] == ys[6] && xs[7] == ys[7] && xs[8] == ys[8] && xs[9] == ys[9];
    CliFromValue(x.cli, y.cli);
    if OrEmpty(a.connectors) == [] {
      NoConnectors(a.connectors, b.connectors);
    } else {
      ConnectorsFromValue(a.connectors, b.connectors, rules);
    }
    ResourcesFromValue(a, b, rules);
    MachinesFromValue(a, b, rules);
    AssignmentsFromValue(a, b, rules);
  }

  /** The JSON value v is that of the canonical manifest of m. */
  ghost predicate Spells(v: Json.Json, m: Manifest, rules: Rules) {
    Json.Sound(v) && Json.Legible(v) && Json.Meaning(v) == ManifestValue(CanonicalServerManifest(m, rules))
  }

  /** One text never stands for manifests that say different things, ties or not. */
  lemma EqualDigestTextsSayTheSame(a: Manifest, b: Manifest, v: Json.Json, w: Json.Json, rules: Rules)
    requires Proper(rules) && ValidManifest(a) && ValidManifest(b) && SoundValues(a) && SoundValues(b)
    requires Spells(v, a, rules) && Spells(w, b, rules)
    requires Json.CanonicalText(v, rules.below) == Json.CanonicalText(w, rules.below)
    ensures SameManifest(a, b, rules)
  {
    JsonReader.EqualTextMeansEqual(v, w, rules.below);
    EqualValuesSayTheSame(a, b, rules);
  }

  /** Two manifests have one text to take the digest of exactly when they say the same. */
  lemma DigestTextExactly(a: Manifest, b: Manifest, v: Json.Json, w: Json.Json, rules: Rules)
    requires Proper(rules) && ValidManifest(a) && ValidManifest(b) && SoundValues(a) && SoundValues(b)
    requires Spells(v, a, rules) && Spells(w, b, rules)
    requires UntiedManifest(a, rules) && JsonReader.NamesUntied(v, rules.below)
    ensures Json.CanonicalText(v, rules.below) == Json.CanonicalText(w, rules.below) <==> SameManifest(a, b, rules)
  {
    if SameManifest(a, b, rules) {
      CanonicalFormExactly(a, b, rules);
      JsonReader.EqualTextExactlyForEqualMeaning(v, w, rules.below);
    }
    if Json.CanonicalText(v, rules.below) == Json.CanonicalText(w, rules.below) { EqualDigestTextsSayTheSame(a, b, v, w, rules); }
  }
}
