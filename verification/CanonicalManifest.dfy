/**
 The canonical server manifest of apps/cli/src/iac/manifest.ts: records sorted by name, set-valued fields
 sorted without duplicates, defaults filled in, unknown fields of the command-line section left out. The
 fields the source copies as they are form one map by name, so entry order is no part of a manifest here.
 */
module CanonicalManifest {
  import opened Commons
  import opened Sorting
  import CanonicalJson

  type Value = CanonicalJson.Value

  /** Entries copied as they are. */
  type Fields = map<string, Value>

  /** The collation of localeCompare, and the trim and toLowerCase of strings. */
  datatype Rules = Rules(below: Relation<string>, trim: string -> string, lower: string -> string)

  ghost predicate Proper(rules: Rules) {
    TotalPreorder(rules.below)
    && (forall s :: rules.trim(rules.trim(s)) == rules.trim(s))
    && (forall s :: rules.lower(rules.lower(s)) == rules.lower(s))
  }

  datatype Named<V> = Named(name: string, value: V)

  type Record<V> = Option<seq<Named<V>>>

  type Names = Option<seq<string>>

  datatype Provider =
    | Atlassian(rest: Fields, allowedScopes: Names, defaultScopes: Names, products: Names, allowedCloudIds: Names)
    | OtherProvider(rest: Fields, allowedScopes: Names, defaultScopes: Names)

  datatype Connector = Connector(rest: Fields, provider: Provider, requiredScopes: Names)

  datatype Resource = Resource(rest: Fields, skillDiscoveryEnabled: Option<bool>, requestPrefixes: Names, scopes: Names)

  datatype Skill = Skill(rest: Fields, content: string, requiredScopes: Names)

  datatype Machine = Machine(rest: Fields, publicKeys: Record<Value>, resources: Names, scopes: Names)

  datatype EmailAssignment = EmailAssignment(rest: Fields, email: string, scopes: Names)

  datatype GroupAssignment = GroupAssignment(rest: Fields, scopes: Names)

  datatype Cli = Cli(logoUrl: Value, darkLogoUrl: Option<Value>, unknown: Fields)

  datatype Manifest = Manifest(
    apiVersion: Value,
    workspace: Value,
    cli: Option<Cli>,
    connectors: Record<Connector>,
    scopes: Record<Value>,
    resources: Record<Resource>,
    skills: Record<Skill>,
    machines: Record<Machine>,
    emailAssignments: Record<EmailAssignment>,
    groupAssignments: Record<GroupAssignment>)

  function OrEmpty<T>(values: Option<seq<T>>): seq<T> {
    if values.None? then [] else values.value
  }

  function ScopeSet(values: Names, rules: Rules): Names {
    Some(CanonicalSet(OrEmpty(values), rules.below))
  }

  /** Atlassian products and sites are sorted by code units. */
  function CodeUnitSet(values: Names): Names {
    Some(CanonicalSet(OrEmpty(values), ByCodeUnit()))
  }

  function ByName<V>(below: Relation<string>): Relation<Named<V>> {
    (x: Named<V>, y: Named<V>) => below(x.name, y.name)
  }

  function Transformed<V>(records: seq<Named<V>>, transform: V -> V): (r: seq<Named<V>>)
    ensures |r| == |records|
    ensures forall i :: 0 <= i < |r| ==> r[i] == Named(records[i].name, transform(records[i].value))
  {
    if records == [] then []
    else [Named(records[0].name, transform(records[0].value))] + Transformed(records[1..], transform)
  }

  function CanonicalRecords<V>(records: Record<V>, transform: V -> V, rules: Rules): Record<V> {
    Some(Sort(Transformed(OrEmpty(records), transform), ByName(rules.below)))
  }

  function Same<V>(): V -> V {
    (value: V) => value
  }

  function ProviderForm(p: Provider, rules: Rules): Provider {
    var q := p.(allowedScopes := ScopeSet(p.allowedScopes, rules), defaultScopes := ScopeSet(p.defaultScopes, rules));
    if q.Atlassian? then q.(products := CodeUnitSet(q.products), allowedCloudIds := CodeUnitSet(q.allowedCloudIds)) else q
  }

  function ConnectorForm(rules: Rules): Connector -> Connector {
    (c: Connector) => c.(provider := ProviderForm(c.provider, rules), requiredScopes := ScopeSet(c.requiredScopes, rules))
  }

  function ResourceForm(rules: Rules): Resource -> Resource {
    (r: Resource) => r.(skillDiscoveryEnabled := Some(r.skillDiscoveryEnabled == Some(true)),
                        requestPrefixes := ScopeSet(r.requestPrefixes, rules), scopes := ScopeSet(r.scopes, rules))
  }

  function SkillForm(rules: Rules): Skill -> Skill {
    (s: Skill) => s.(content := rules.trim(s.content), requiredScopes := ScopeSet(s.requiredScopes, rules))
  }

  function MachineForm(rules: Rules): Machine -> Machine {
    (m: Machine) => m.(publicKeys := CanonicalRecords(m.publicKeys, Same(), rules),
                       resources := ScopeSet(m.resources, rules), scopes := ScopeSet(m.scopes, rules))
  }

  function EmailForm(rules: Rules): EmailAssignment -> EmailAssignment {
    (e: EmailAssignment) => e.(email := rules.lower(e.email), scopes := ScopeSet(e.scopes, rules))
  }

  function GroupForm(rules: Rules): GroupAssignment -> GroupAssignment {
    (g: GroupAssignment) => g.(scopes := ScopeSet(g.scopes, rules))
  }

  /** An empty connectors section is left out, as servers that predate it require. */
  function CanonicalServerManifest(m: Manifest, rules: Rules): Manifest {
    Manifest(
      m.apiVersion,
      m.workspace,
      if m.cli.None? then None else Some(Cli(m.cli.value.logoUrl, m.cli.value.darkLogoUrl, map[])),
      if OrEmpty(m.connectors) == [] then None else CanonicalRecords(m.connectors, ConnectorForm(rules), rules),
      CanonicalRecords(m.scopes, Same(), rules),
      CanonicalRecords(m.resources, ResourceForm(rules), rules),
      CanonicalRecords(m.skills, SkillForm(rules), rules),
      CanonicalRecords(m.machines, MachineForm(rules), rules),
      CanonicalRecords(m.emailAssignments, EmailForm(rules), rules),
      CanonicalRecords(m.groupAssignments, GroupForm(rules), rules))
  }

  // ---------------------------------------------------------------------------
  // Records
  // ---------------------------------------------------------------------------

  ghost predicate UniqueNames<V>(records: seq<Named<V>>) {
    forall i, j :: 0 <= i < j < |records| ==> records[i].name != records[j].name
  }

  ghost predicate UntiedNames<V>(records: seq<Named<V>>, below: Relation<string>) {
    forall i, j :: 0 <= i < |records| && 0 <= j < |records| ==> !Tied(below, records[i].name, records[j].name)
  }

  ghost predicate HasName<V>(records: seq<Named<V>>, name: string) {
    exists i :: 0 <= i < |records| && records[i].name == name
  }

  /** The same names, and under each name values with one canonical form. */
  ghost predicate SameRecords<V>(a: seq<Named<V>>, b: seq<Named<V>>, transform: V -> V) {
    (forall name :: HasName(a, name) <==> HasName(b, name)) &&
    forall i, j :: 0 <= i < |a| && 0 <= j < |b| && a[i].name == b[j].name ==> transform(a[i].value) == transform(b[j].value)
  }

  lemma NamesOrderRecords<V(!new)>(below: Relation<string>)
    requires TotalPreorder(below)
    ensures TotalPreorder(ByName<V>(below))
  {
    var byName := ByName<V>(below);
    forall f, g ensures byName(f, g) || byName(g, f) {
      assert below(f.name, g.name) || below(g.name, f.name);
    }
    forall f, g, h | byName(f, g) && byName(g, h) ensures byName(f, h) {
      assert below(f.name, g.name) && below(g.name, h.name);
    }
  }

  lemma TransformedStays<V>(records: seq<Named<V>>, transform: V -> V)
    requires forall r :: r in records ==> transform(r.value) == r.value
    ensures Transformed(records, transform) == records
  {
    forall i | 0 <= i < |records| ensures Transformed(records, transform)[i] == records[i] {
      assert records[i] in records;
    }
  }

  lemma RecordsAreIdempotent<V(!new)>(records: Record<V>, transform: V -> V, rules: Rules)
    requires TotalPreorder(rules.below) && forall v :: transform(transform(v)) == transform(v)
    ensures CanonicalRecords(CanonicalRecords(records, transform, rules), transform, rules)
         == CanonicalRecords(records, transform, rules)
  {
    var once := Transformed(OrEmpty(records), transform);
    var sorted := Sort(once, ByName(rules.below));
    SortPermutes(once, ByName(rules.below));
    SameMembers(sorted, once);
    forall r | r in sorted ensures transform(r.value) == r.value {
      assert r in once;
    }
    TransformedStays(sorted, transform);
    NamesOrderRecords<V>(rules.below);
    SortOrders(once, ByName(rules.below));
    SortedStays(sorted, ByName(rules.below));
  }

  lemma UniqueNamesAreUnique<V>(records: seq<Named<V>>)
    requires UniqueNames(records)
    ensures Unique(records)
    ensures forall f, g :: f in records && g in records && f.name == g.name ==> f == g
  {}

  lemma NamesTieAsRecords<V>(records: seq<Named<V>>, below: Relation<string>)
    requires UniqueNames(records)
    ensures Untied(records, ByName(below)) <==> UntiedNames(records, below)
  {
    if Untied(records, ByName(below)) {
      forall i, j | 0 <= i < |records| && 0 <= j < |records| ensures !Tied(below, records[i].name, records[j].name) {
        assert !Tied(ByName(below), records[i], records[j]);
      }
    }
  }

  lemma SameRecordsTransform<V(!new)>(a: seq<Named<V>>, b: seq<Named<V>>, transform: V -> V)
    requires UniqueNames(a) && UniqueNames(b)
    ensures SameElements(Transformed(a, transform), Transformed(b, transform)) <==> SameRecords(a, b, transform)
  {
    var ta, tb := Transformed(a, transform), Transformed(b, transform);
    if SameRecords(a, b, transform) {
      forall x | x in ta ensures x in tb { CarriesOver(a, b, transform, x); }
      forall x | x in tb ensures x in ta { CarriesOver(b, a, transform, x); }
    }
    if SameElements(ta, tb) {
      forall name ensures HasName(a, name) <==> HasName(b, name) {
        if HasName(a, name) { NameCarriesOver(a, b, transform, name); }
        if HasName(b, name) { NameCarriesOver(b, a, transform, name); }
      }
      forall i, j | 0 <= i < |a| && 0 <= j < |b| && a[i].name == b[j].name
        ensures transform(a[i].value) == transform(b[j].value)
      {
        assert ta[i] in tb;
        var k :| 0 <= k < |b| && tb[k] == ta[i];
        assert k == j;
      }
    }
  }

  lemma CarriesOver<V(!new)>(a: seq<Named<V>>, b: seq<Named<V>>, transform: V -> V, x: Named<V>)
    requires SameRecords(a, b, transform) && x in Transformed(a, transform)
    ensures x in Transformed(b, transform)
  {
    var i :| 0 <= i < |a| && Transformed(a, transform)[i] == x;
    assert HasName(a, x.name);
    assert HasName(b, x.name);
    var j :| 0 <= j < |b| && b[j].name == x.name;
    assert Transformed(b, transform)[j] == x;
  }

  lemma NameCarriesOver<V(!new)>(a: seq<Named<V>>, b: seq<Named<V>>, transform: V -> V, name: string)
    requires SameElements(Transformed(a, transform), Transformed(b, transform)) && HasName(a, name)
    ensures HasName(b, name)
  {
    var i :| 0 <= i < |a| && a[i].name == name;
    assert Transformed(a, transform)[i] in Transformed(b, transform);
    var j :| 0 <= j < |b| && Transformed(b, transform)[j] == Transformed(a, transform)[i];
    assert b[j].name == name;
  }

  lemma SortedElements<V(!new)>(xs: seq<Named<V>>, below: Relation<Named<V>>)
    requires UniqueNames(xs)
    ensures SameElements(Sort(xs, below), xs) && UniqueNames(Sort(xs, below))
  {
    UniqueNamesAreUnique(xs);
    SortKeepsUnique(xs, below);
    var sorted := Sort(xs, below);
    forall i, j | 0 <= i < j < |sorted| ensures sorted[i].name != sorted[j].name {
      assert sorted[i] in xs && sorted[j] in xs && sorted[i] != sorted[j];
    }
  }

  /** Sorted records say which names have which values and, without ties, nothing else. */
  lemma SortedExactly<V(!new)>(xs: seq<Named<V>>, ys: seq<Named<V>>, below: Relation<string>)
    requires TotalPreorder(below) && UniqueNames(xs) && UniqueNames(ys)
    ensures Sort(xs, ByName(below)) == Sort(ys, ByName(below)) ==> SameElements(xs, ys)
    ensures UntiedNames(xs, below) && SameElements(xs, ys) ==> Sort(xs, ByName(below)) == Sort(ys, ByName(below))
  {
    var sx, sy := Sort(xs, ByName(below)), Sort(ys, ByName(below));
    SortedElements(xs, ByName(below));
    SortedElements(ys, ByName(below));
    if UntiedNames(xs, below) && SameElements(xs, ys) {
      UniqueNamesAreUnique(xs);
      UniqueNamesAreUnique(ys);
      UniqueSameElements(xs, ys);
      SortPermutes(xs, ByName(below));
      SortPermutes(ys, ByName(below));
      NamesOrderRecords<V>(below);
      SortOrders(xs, ByName(below));
      SortOrders(ys, ByName(below));
      NamesTieAsRecords(xs, below);
      UntiedElements(xs, sx, ByName(below));
      OrderFixesTheList(sx, sy, ByName(below));
    }
  }

  // ---------------------------------------------------------------------------
  // What a manifest says
  // ---------------------------------------------------------------------------

  ghost predicate SameSet(a: Names, b: Names) {
    SameElements(OrEmpty(a), OrEmpty(b))
  }

  ghost predicate SameProvider(a: Provider, b: Provider) {
    a.rest == b.rest && SameSet(a.allowedScopes, b.allowedScopes) && SameSet(a.defaultScopes, b.defaultScopes)
    && (a.Atlassian? <==> b.Atlassian?)
    && (a.Atlassian? ==> SameSet(a.products, b.products) && SameSet(a.allowedCloudIds, b.allowedCloudIds))
  }

  ghost predicate SameConnector(a: Connector, b: Connector) {
    a.rest == b.rest && SameProvider(a.provider, b.provider) && SameSet(a.requiredScopes, b.requiredScopes)
  }

  /** Discovery is off unless it is said to be on. */
  ghost predicate SameResource(a: Resource, b: Resource) {
    a.rest == b.rest && (a.skillDiscoveryEnabled == Some(true) <==> b.skillDiscoveryEnabled == Some(true))
    && SameSet(a.requestPrefixes, b.requestPrefixes) && SameSet(a.scopes, b.scopes)
  }

  ghost predicate SameSkill(a: Skill, b: Skill, rules: Rules) {
    a.rest == b.rest && rules.trim(a.content) == rules.trim(b.content) && SameSet(a.requiredScopes, b.requiredScopes)
  }

  ghost predicate SameMachine(a: Machine, b: Machine) {
    a.rest == b.rest && SameSet(a.resources, b.resources) && SameSet(a.scopes, b.scopes)
    && SameElements(OrEmpty(a.publicKeys), OrEmpty(b.publicKeys))
  }

  ghost predicate SameEmail(a: EmailAssignment, b: EmailAssignment, rules: Rules) {
    a.rest == b.rest && rules.lower(a.email) == rules.lower(b.email) && SameSet(a.scopes, b.scopes)
  }

  ghost predicate SameGroup(a: GroupAssignment, b: GroupAssignment) {
    a.rest == b.rest && SameSet(a.scopes, b.scopes)
  }

  /** Unknown fields aside. */
  ghost predicate SameCli(a: Option<Cli>, b: Option<Cli>) {
    (a.None? <==> b.None?)
    && (a.Some? && b.Some? ==> a.value.logoUrl == b.value.logoUrl && a.value.darkLogoUrl == b.value.darkLogoUrl)
  }

  /** Sections with the same names, and values that say the same under each name; an absent section is an empty one. */
  ghost predicate SameSection<V>(a: Record<V>, b: Record<V>, same: (V, V) -> bool) {
    (forall name :: HasName(OrEmpty(a), name) <==> HasName(OrEmpty(b), name)) &&
    forall i, j :: 0 <= i < |OrEmpty(a)| && 0 <= j < |OrEmpty(b)| && OrEmpty(a)[i].name == OrEmpty(b)[j].name ==>
      same(OrEmpty(a)[i].value, OrEmpty(b)[j].value)
  }

  ghost function ConnectorSame(): (Connector, Connector) -> bool { (x, y) => SameConnector(x, y) }

  ghost function ValueSame(): (Value, Value) -> bool { (x: Value, y: Value) => x == y }

  ghost function ResourceSame(): (Resource, Resource) -> bool { (x, y) => SameResource(x, y) }

  ghost function SkillSame(rules: Rules): (Skill, Skill) -> bool { (x, y) => SameSkill(x, y, rules) }

  ghost function MachineSame(): (Machine, Machine) -> bool { (x, y) => SameMachine(x, y) }

  ghost function EmailSame(rules: Rules): (EmailAssignment, EmailAssignment) -> bool { (x, y) => SameEmail(x, y, rules) }

  ghost function GroupSame(): (GroupAssignment, GroupAssignment) -> bool { (x, y) => SameGroup(x, y) }

  ghost predicate SameManifest(a: Manifest, b: Manifest, rules: Rules) {
    && a.apiVersion == b.apiVersion && a.workspace == b.workspace && SameCli(a.cli, b.cli)
    && SameSection(a.connectors, b.connectors, ConnectorSame())
    && SameSection(a.scopes, b.scopes, ValueSame())
    && SameSection(a.resources, b.resources, ResourceSame())
    && SameSection(a.skills, b.skills, SkillSame(rules))
    && SameSection(a.machines, b.machines, MachineSame())
    && SameSection(a.emailAssignments, b.emailAssignments, EmailSame(rules))
    && SameSection(a.groupAssignments, b.groupAssignments, GroupSame())
  }

  ghost predicate ValidMachines(records: seq<Named<Machine>>) {
    forall i :: 0 <= i < |records| ==> UniqueNames(OrEmpty(records[i].value.publicKeys))
  }

  /** JavaScript objects: no name twice in a section. */
  ghost predicate ValidManifest(m: Manifest) {
    UniqueNames(OrEmpty(m.connectors)) && UniqueNames(OrEmpty(m.scopes)) && UniqueNames(OrEmpty(m.resources))
    && UniqueNames(OrEmpty(m.skills)) && UniqueNames(OrEmpty(m.machines)) && UniqueNames(OrEmpty(m.emailAssignments))
    && UniqueNames(OrEmpty(m.groupAssignments)) && ValidMachines(OrEmpty(m.machines))
  }

  // ---------------------------------------------------------------------------
  // Ties within one manifest
  // ---------------------------------------------------------------------------

  ghost predicate UntiedSet(values: Names, rules: Rules) {
    Untied(OrEmpty(values), rules.below)
  }

  ghost predicate UntiedConnector(c: Connector, rules: Rules) {
    UntiedSet(c.requiredScopes, rules) && UntiedSet(c.provider.allowedScopes, rules) && UntiedSet(c.provider.defaultScopes, rules)
  }

  ghost predicate UntiedResource(r: Resource, rules: Rules) {
    UntiedSet(r.requestPrefixes, rules) && UntiedSet(r.scopes, rules)
  }

  ghost predicate UntiedMachine(m: Machine, rules: Rules) {
    UntiedSet(m.resources, rules) && UntiedSet(m.scopes, rules) && UntiedNames(OrEmpty(m.publicKeys), rules.below)
  }

  ghost function ConnectorUntied(rules: Rules): Connector -> bool { c => UntiedConnector(c, rules) }

  ghost function AlwaysUntied(): Value -> bool { v => true }

  ghost function ResourceUntied(rules: Rules): Resource -> bool { r => UntiedResource(r, rules) }

  ghost function SkillUntied(rules: Rules): Skill -> bool { (s: Skill) => UntiedSet(s.requiredScopes, rules) }

  ghost function MachineUntied(rules: Rules): Machine -> bool { m => UntiedMachine(m, rules) }

  ghost function EmailUntied(rules: Rules): EmailAssignment -> bool { (e: EmailAssignment) => UntiedSet(e.scopes, rules) }

  ghost function GroupUntied(rules: Rules): GroupAssignment -> bool { (g: GroupAssignment) => UntiedSet(g.scopes, rules) }

  ghost predicate UntiedSection<V>(records: Record<V>, untied: V -> bool, rules: Rules) {
    UntiedNames(OrEmpty(records), rules.below) && forall i :: 0 <= i < |OrEmpty(records)| ==> untied(OrEmpty(records)[i].value)
  }

  /** In no section two names tie, and in no set two elements. */
  ghost predicate UntiedManifest(m: Manifest, rules: Rules) {
    && UntiedSection(m.connectors, ConnectorUntied(rules), rules)
    && UntiedSection(m.scopes, AlwaysUntied(), rules)
    && UntiedSection(m.resources, ResourceUntied(rules), rules)
    && UntiedSection(m.skills, SkillUntied(rules), rules)
    && UntiedSection(m.machines, MachineUntied(rules), rules)
    && UntiedSection(m.emailAssignments, EmailUntied(rules), rules)
    && UntiedSection(m.groupAssignments, GroupUntied(rules), rules)
  }

  // ---------------------------------------------------------------------------
  // The form of a value says what the value says
  // ---------------------------------------------------------------------------

  lemma SetsExactly(a: Names, b: Names, rules: Rules)
    requires TotalPreorder(rules.below)
    ensures ScopeSet(a, rules) == ScopeSet(b, rules) ==> SameSet(a, b)
    ensures UntiedSet(a, rules) && SameSet(a, b) ==> ScopeSet(a, rules) == ScopeSet(b, rules)
  {
    if ScopeSet(a, rules) == ScopeSet(b, rules) { EqualSetsHaveTheSameElements(OrEmpty(a), OrEmpty(b), rules.below); }
    if UntiedSet(a, rules) { CanonicalSetIsTheSet(OrEmpty(a), OrEmpty(b), rules.below); }
  }

  lemma CodeUnitSetsExactly(a: Names, b: Names)
    ensures CodeUnitSet(a) == CodeUnitSet(b) <==> SameSet(a, b)
  {
    CodeUnitsNeverTie();
    CanonicalSetIsTheSet(OrEmpty(a), OrEmpty(b), ByCodeUnit());
  }

  /** Equal forms say the same; without ties in the first, what says the same has an equal form. */
  ghost predicate Exactly<V>(transform: V -> V, same: (V, V) -> bool, untied: V -> bool, a: V, b: V) {
    (transform(a) == transform(b) ==> same(a, b)) && (untied(a) && same(a, b) ==> transform(a) == transform(b))
  }

  lemma ProviderExactly(a: Provider, b: Provider, rules: Rules)
    requires TotalPreorder(rules.below)
    ensures ProviderForm(a, rules) == ProviderForm(b, rules) ==> SameProvider(a, b)
    ensures UntiedSet(a.allowedScopes, rules) && UntiedSet(a.defaultScopes, rules) && SameProvider(a, b) ==>
              ProviderForm(a, rules) == ProviderForm(b, rules)
  {
    SetsExactly(a.allowedScopes, b.allowedScopes, rules);
    SetsExactly(a.defaultScopes, b.defaultScopes, rules);
    if a.Atlassian? && b.Atlassian? {
      CodeUnitSetsExactly(a.products, b.products);
      CodeUnitSetsExactly(a.allowedCloudIds, b.allowedCloudIds);
    }
  }

  lemma ConnectorExactly(a: Connector, b: Connector, rules: Rules)
    requires TotalPreorder(rules.below)
    ensures Exactly(ConnectorForm(rules), ConnectorSame(), ConnectorUntied(rules), a, b)
  {
    SetsExactly(a.requiredScopes, b.requiredScopes, rules);
    ProviderExactly(a.provider, b.provider, rules);
  }

  lemma ResourceExactly(a: Resource, b: Resource, rules: Rules)
    requires TotalPreorder(rules.below)
    ensures Exactly(ResourceForm(rules), ResourceSame(), ResourceUntied(rules), a, b)
  {
    SetsExactly(a.requestPrefixes, b.requestPrefixes, rules);
    SetsExactly(a.scopes, b.scopes, rules);
  }

  lemma SkillExactly(a: Skill, b: Skill, rules: Rules)
    requires TotalPreorder(rules.below)
    ensures Exactly(SkillForm(rules), SkillSame(rules), SkillUntied(rules), a, b)
  {
    SetsExactly(a.requiredScopes, b.requiredScopes, rules);
  }

  lemma SameStays<V>(records: seq<Named<V>>)
    ensures Transformed(records, Same()) == records
  {
    TransformedStays(records, Same());
  }

  lemma MachineExactly(a: Machine, b: Machine, rules: Rules)
    requires TotalPreorder(rules.below)
    requires UniqueNames(OrEmpty(a.publicKeys)) && UniqueNames(OrEmpty(b.publicKeys))
    ensures Exactly(MachineForm(rules), MachineSame(), MachineUntied(rules), a, b)
  {
    SetsExactly(a.resources, b.resources, rules);
    SetsExactly(a.scopes, b.scopes, rules);
    SameStays(OrEmpty(a.publicKeys));
    SameStays(OrEmpty(b.publicKeys));
    SortedExactly(OrEmpty(a.publicKeys), OrEmpty(b.publicKeys), rules.below);
  }

  lemma EmailExactly(a: EmailAssignment, b: EmailAssignment, rules: Rules)
    requires TotalPreorder(rules.below)
    ensures Exactly(EmailForm(rules), EmailSame(rules), EmailUntied(rules), a, b)
  {
    SetsExactly(a.scopes, b.scopes, rules);
  }

  lemma GroupExactly(a: GroupAssignment, b: GroupAssignment, rules: Rules)
    requires TotalPreorder(rules.below)
    ensures Exactly(GroupForm(rules), GroupSame(), GroupUntied(rules), a, b)
  {
    SetsExactly(a.scopes, b.scopes, rules);
  }

  ghost predicate AllExactly<V>(transform: V -> V, same: (V, V) -> bool, untied: V -> bool, a: seq<Named<V>>, b: seq<Named<V>>) {
    forall i, j :: 0 <= i < |a| && 0 <= j < |b| ==> Exactly(transform, same, untied, a[i].value, b[j].value)
  }

  /** What equality of two canonical sections means. */
  ghost predicate SectionExact<V>(a: Record<V>, b: Record<V>, transform: V -> V, same: (V, V) -> bool, untied: V -> bool, rules: Rules) {
    (CanonicalRecords(a, transform, rules) == CanonicalRecords(b, transform, rules) ==> SameSection(a, b, same)) &&
    (UntiedSection(a, untied, rules) && SameSection(a, b, same) ==>
       CanonicalRecords(a, transform, rules) == CanonicalRecords(b, transform, rules))
  }

  lemma SectionExactly<V(!new)>(a: Record<V>, b: Record<V>, transform: V -> V, same: (V, V) -> bool, untied: V -> bool, rules: Rules)
    requires TotalPreorder(rules.below)
    requires UniqueNames(OrEmpty(a)) && UniqueNames(OrEmpty(b)) && AllExactly(transform, same, untied, OrEmpty(a), OrEmpty(b))
    ensures SectionExact(a, b, transform, same, untied, rules)
  {
    var xs, ys := OrEmpty(a), OrEmpty(b);
    SameRecordsTransform(xs, ys, transform);
    SortedExactly(Transformed(xs, transform), Transformed(ys, transform), rules.below);
    if UntiedSection(a, untied, rules) && SameSection(a, b, same) {
      forall i, j | 0 <= i < |xs| && 0 <= j < |ys| && xs[i].name == ys[j].name ensures transform(xs[i].value) == transform(ys[j].value) {
        assert Exactly(transform, same, untied, xs[i].value, ys[j].value);
      }
      assert UntiedNames(Transformed(xs, transform), rules.below);
    }
    if SameRecords(xs, ys, transform) {
      forall i, j | 0 <= i < |xs| && 0 <= j < |ys| && xs[i].name == ys[j].name ensures same(xs[i].value, ys[j].value) {
        assert Exactly(transform, same, untied, xs[i].value, ys[j].value);
      }
    }
  }

  lemma ConnectorsExactly(a: Manifest, b: Manifest, rules: Rules)
    requires TotalPreorder(rules.below) && ValidManifest(a) && ValidManifest(b)
    ensures SectionExact(a.connectors, b.connectors, ConnectorForm(rules), ConnectorSame(), ConnectorUntied(rules), rules)
  {
    forall x: Connector, y: Connector { ConnectorExactly(x, y, rules); }
    SectionExactly(a.connectors, b.connectors, ConnectorForm(rules), ConnectorSame(), ConnectorUntied(rules), rules);
  }

  lemma ScopesExactly(a: Manifest, b: Manifest, rules: Rules)
    requires TotalPreorder(rules.below) && ValidManifest(a) && ValidManifest(b)
    ensures SectionExact(a.scopes, b.scopes, Same(), ValueSame(), AlwaysUntied(), rules)
    ensures SectionExact(a.resources, b.resources, ResourceForm(rules), ResourceSame(), ResourceUntied(rules), rules)
    ensures SectionExact(a.skills, b.skills, SkillForm(rules), SkillSame(rules), SkillUntied(rules), rules)
  {
    SectionExactly(a.scopes, b.scopes, Same(), ValueSame(), AlwaysUntied(), rules);
    forall x: Resource, y: Resource { ResourceExactly(x, y, rules); }
    SectionExactly(a.resources, b.resources, ResourceForm(rules), ResourceSame(), ResourceUntied(rules), rules);
    forall x: Skill, y: Skill { SkillExactly(x, y, rules); }
    SectionExactly(a.skills, b.skills, SkillForm(rules), SkillSame(rules), SkillUntied(rules), rules);
  }

  lemma SubjectsExactly(a: Manifest, b: Manifest, rules: Rules)
    requires TotalPreorder(rules.below) && ValidManifest(a) && ValidManifest(b)
    ensures SectionExact(a.machines, b.machines, MachineForm(rules), MachineSame(), MachineUntied(rules), rules)
    ensures SectionExact(a.emailAssignments, b.emailAssignments, EmailForm(rules), EmailSame(rules), EmailUntied(rules), rules)
    ensures SectionExact(a.groupAssignments, b.groupAssignments, GroupForm(rules), GroupSame(), GroupUntied(rules), rules)
  {
    var ma, mb := OrEmpty(a.machines), OrEmpty(b.machines);
    forall i, j | 0 <= i < |ma| && 0 <= j < |mb|
      ensures Exactly(MachineForm(rules), MachineSame(), MachineUntied(rules), ma[i].value, mb[j].value)
    {
      MachineExactly(ma[i].value, mb[j].value, rules);
    }
    SectionExactly(a.machines, b.machines, MachineForm(rules), MachineSame(), MachineUntied(rules), rules);
    forall x: EmailAssignment, y: EmailAssignment { EmailExactly(x, y, rules); }
    SectionExactly(a.emailAssignments, b.emailAssignments, EmailForm(rules), EmailSame(rules), EmailUntied(rules), rules);
    forall x: GroupAssignment, y: GroupAssignment { GroupExactly(x, y, rules); }
    SectionExactly(a.groupAssignments, b.groupAssignments, GroupForm(rules), GroupSame(), GroupUntied(rules), rules);
  }

  lemma CanonicalRecordsSize<V>(records: Record<V>, transform: V -> V, rules: Rules)
    ensures |OrEmpty(CanonicalRecords(records, transform, rules))| == |OrEmpty(records)|
  {
    var once := Transformed(OrEmpty(records), transform);
    SortPermutes(once, ByName(rules.below));
    assert |multiset(Sort(once, ByName(rules.below)))| == |multiset(once)|;
  }

  lemma SameSectionsAreEmptyTogether<V>(a: Record<V>, b: Record<V>, same: (V, V) -> bool)
    requires SameSection(a, b, same)
    ensures OrEmpty(a) == [] <==> OrEmpty(b) == []
  {
    assert OrEmpty(a) != [] ==> HasName(OrEmpty(a), OrEmpty(a)[0].name);
    assert OrEmpty(b) != [] ==> HasName(OrEmpty(b), OrEmpty(b)[0].name);
  }

  /** Equal canonical forms say the same, ties or not. */
  lemma EqualFormsSayTheSame(a: Manifest, b: Manifest, rules: Rules)
    requires Proper(rules) && ValidManifest(a) && ValidManifest(b)
    requires CanonicalServerManifest(a, rules) == CanonicalServerManifest(b, rules)
    ensures SameManifest(a, b, rules)
  {
    ConnectorsExactly(a, b, rules);
    ScopesExactly(a, b, rules);
    SubjectsExactly(a, b, rules);
  }

  lemma WhatSaysTheSameHasTheForm(a: Manifest, b: Manifest, rules: Rules)
    requires Proper(rules) && UntiedManifest(a, rules) && ValidManifest(a) && ValidManifest(b) && SameManifest(a, b, rules)
    ensures CanonicalServerManifest(a, rules) == CanonicalServerManifest(b, rules)
  {
    ConnectorsExactly(a, b, rules);
    ScopesExactly(a, b, rules);
    SubjectsExactly(a, b, rules);
    SameSectionsAreEmptyTogether(a.connectors, b.connectors, ConnectorSame());
  }

  /** A manifest without ties has the canonical form of exactly the manifests that say the same, however ordered or repeated. */
  lemma CanonicalFormExactly(a: Manifest, b: Manifest, rules: Rules)
    requires Proper(rules) && UntiedManifest(a, rules) && ValidManifest(a) && ValidManifest(b)
    ensures CanonicalServerManifest(a, rules) == CanonicalServerManifest(b, rules) <==> SameManifest(a, b, rules)
  {
    if SameManifest(a, b, rules) { WhatSaysTheSameHasTheForm(a, b, rules); }
    if CanonicalServerManifest(a, rules) == CanonicalServerManifest(b, rules) { EqualFormsSayTheSame(a, b, rules); }
  }

  // ---------------------------------------------------------------------------
  // Canonical forms are canonical
  // ---------------------------------------------------------------------------

  lemma SetsAreIdempotent(a: Names, rules: Rules)
    requires TotalPreorder(rules.below)
    ensures ScopeSet(ScopeSet(a, rules), rules) == ScopeSet(a, rules) && CodeUnitSet(CodeUnitSet(a)) == CodeUnitSet(a)
  {
    CodeUnitsNeverTie();
    CanonicalSetIsIdempotent(OrEmpty(a), rules.below);
    CanonicalSetIsIdempotent(OrEmpty(a), ByCodeUnit());
  }

  lemma FormsAreIdempotent(rules: Rules)
    requires Proper(rules)
    ensures forall c :: ConnectorForm(rules)(ConnectorForm(rules)(c)) == ConnectorForm(rules)(c)
    ensures forall r :: ResourceForm(rules)(ResourceForm(rules)(r)) == ResourceForm(rules)(r)
    ensures forall s :: SkillForm(rules)(SkillForm(rules)(s)) == SkillForm(rules)(s)
    ensures forall m :: MachineForm(rules)(MachineForm(rules)(m)) == MachineForm(rules)(m)
    ensures forall e :: EmailForm(rules)(EmailForm(rules)(e)) == EmailForm(rules)(e)
    ensures forall g :: GroupForm(rules)(GroupForm(rules)(g)) == GroupForm(rules)(g)
  {
    forall names: Names
      ensures ScopeSet(ScopeSet(names, rules), rules) == ScopeSet(names, rules)
      ensures CodeUnitSet(CodeUnitSet(names)) == CodeUnitSet(names)
    {
      SetsAreIdempotent(names, rules);
    }
    forall keys: Record<Value>
      ensures CanonicalRecords(CanonicalRecords(keys, Same(), rules), Same(), rules) == CanonicalRecords(keys, Same(), rules)
    {
      RecordsAreIdempotent(keys, Same(), rules);
    }
    forall s ensures SkillForm(rules)(SkillForm(rules)(s)) == SkillForm(rules)(s) {
      assert rules.trim(rules.trim(s.content)) == rules.trim(s.content);
    }
    forall e ensures EmailForm(rules)(EmailForm(rules)(e)) == EmailForm(rules)(e) {
      assert rules.lower(rules.lower(e.email)) == rules.lower(e.email);
    }
  }

  lemma CanonicalFormIsIdempotent(m: Manifest, rules: Rules)
    requires Proper(rules)
    ensures CanonicalServerManifest(CanonicalServerManifest(m, rules), rules) == CanonicalServerManifest(m, rules)
  {
    FormsAreIdempotent(rules);
    CanonicalRecordsSize(m.connectors, ConnectorForm(rules), rules);
    RecordsAreIdempotent(m.connectors, ConnectorForm(rules), rules);
    RecordsAreIdempotent(m.scopes, Same(), rules);
    RecordsAreIdempotent(m.resources, ResourceForm(rules), rules);
    RecordsAreIdempotent(m.skills, SkillForm(rules), rules);
    RecordsAreIdempotent(m.machines, MachineForm(rules), rules);
    RecordsAreIdempotent(m.emailAssignments, EmailForm(rules), rules);
    RecordsAreIdempotent(m.groupAssignments, GroupForm(rules), rules);
  }
}
