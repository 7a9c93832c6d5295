/**
 Ties of the collation in the canonical manifest of apps/cli/src/iac/manifest.ts: the form of a manifest
 depends on the order of its input exactly when two names of one of its sections, or two elements of one
 of its sets, tie.
 */
module ManifestTies {
  import opened Commons
  import opened Sorting
  import opened CanonicalManifest

  // ---------------------------------------------------------------------------
  // The same values in another order
  // ---------------------------------------------------------------------------

  function OtherNames(values: Names): Names {
    if values.None? then None else Some(OtherOrder(values.value))
  }

  function OtherScopes(p: Provider): Provider {
    p.(allowedScopes := OtherNames(p.allowedScopes), defaultScopes := OtherNames(p.defaultScopes))
  }

  function OtherConnector(): Connector -> Connector {
    (c: Connector) => c.(requiredScopes := OtherNames(c.requiredScopes), provider := OtherScopes(c.provider))
  }

  function OtherResource(): Resource -> Resource {
    (r: Resource) => r.(requestPrefixes := OtherNames(r.requestPrefixes), scopes := OtherNames(r.scopes))
  }

  function OtherSkill(): Skill -> Skill {
    (s: Skill) => s.(requiredScopes := OtherNames(s.requiredScopes))
  }

  function OtherMachine(): Machine -> Machine {
    (m: Machine) => m.(resources := OtherNames(m.resources), scopes := OtherNames(m.scopes),
                       publicKeys := if m.publicKeys.None? then None else Some(Reversed(m.publicKeys.value)))
  }

  function OtherEmail(): EmailAssignment -> EmailAssignment {
    (e: EmailAssignment) => e.(scopes := OtherNames(e.scopes))
  }

  function OtherGroup(): GroupAssignment -> GroupAssignment {
    (g: GroupAssignment) => g.(scopes := OtherNames(g.scopes))
  }

  function OtherRecords<V>(records: Record<V>, other: V -> V): Record<V> {
    if records.None? then None else Some(Reversed(Transformed(records.value, other)))
  }

  function OtherManifest(m: Manifest): Manifest {
    m.(connectors := OtherRecords(m.connectors, OtherConnector()), scopes := OtherRecords(m.scopes, Same()),
       resources := OtherRecords(m.resources, OtherResource()), skills := OtherRecords(m.skills, OtherSkill()),
       machines := OtherRecords(m.machines, OtherMachine()), emailAssignments := OtherRecords(m.emailAssignments, OtherEmail()),
       groupAssignments := OtherRecords(m.groupAssignments, OtherGroup()))
  }

  // ---------------------------------------------------------------------------
  // The other order shows exactly when there is a tie
  // ---------------------------------------------------------------------------

  lemma OtherSet(values: Names, rules: Rules)
    requires TotalPreorder(rules.below)
    ensures SameSet(values, OtherNames(values))
    ensures ScopeSet(OtherNames(values), rules) == ScopeSet(values, rules) <==> UntiedSet(values, rules)
  {
    if values.Some? { AnotherOrderOfASet(values.value, rules.below); }
  }

  /** The other order says the same, and has the same form exactly if nothing ties. */
  ghost predicate Shows<V>(transform: V -> V, same: (V, V) -> bool, untied: V -> bool, other: V -> V, v: V) {
    same(v, other(v)) && (transform(other(v)) == transform(v) <==> untied(v))
  }

  lemma ProviderShows(p: Provider, rules: Rules)
    requires TotalPreorder(rules.below)
    ensures SameProvider(p, OtherScopes(p))
    ensures ProviderForm(OtherScopes(p), rules) == ProviderForm(p, rules)
       <==> UntiedSet(p.allowedScopes, rules) && UntiedSet(p.defaultScopes, rules)
  {
    OtherSet(p.allowedScopes, rules);
    OtherSet(p.defaultScopes, rules);
    var q := OtherScopes(p);
    assert ProviderForm(p, rules).allowedScopes == ScopeSet(p.allowedScopes, rules);
    assert ProviderForm(p, rules).defaultScopes == ScopeSet(p.defaultScopes, rules);
    assert ProviderForm(q, rules).allowedScopes == ScopeSet(q.allowedScopes, rules);
    assert ProviderForm(q, rules).defaultScopes == ScopeSet(q.defaultScopes, rules);
  }

  lemma ConnectorShows(c: Connector, rules: Rules)
    requires TotalPreorder(rules.below)
    ensures Shows(ConnectorForm(rules), ConnectorSame(), ConnectorUntied(rules), OtherConnector(), c)
  {
    OtherSet(c.requiredScopes, rules);
    ProviderShows(c.provider, rules);
  }

  lemma ResourceShows(r: Resource, rules: Rules)
    requires TotalPreorder(rules.below)
    ensures Shows(ResourceForm(rules), ResourceSame(), ResourceUntied(rules), OtherResource(), r)
  {
    OtherSet(r.requestPrefixes, rules);
    OtherSet(r.scopes, rules);
  }

  lemma SkillShows(s: Skill, rules: Rules)
    requires TotalPreorder(rules.below)
    ensures Shows(SkillForm(rules), SkillSame(rules), SkillUntied(rules), OtherSkill(), s)
  {
    OtherSet(s.requiredScopes, rules);
  }

  lemma KeysShow(keys: Record<Value>, rules: Rules)
    requires TotalPreorder(rules.below) && UniqueNames(OrEmpty(keys))
    ensures var others := if keys.None? then None else Some(Reversed(keys.value));
            && SameElements(OrEmpty(keys), OrEmpty(others))
            && (CanonicalRecords(others, Same(), rules) == CanonicalRecords(keys, Same(), rules) <==> UntiedNames(OrEmpty(keys), rules.below))
  {
    var xs := OrEmpty(keys);
    SameStays(xs);
    SameStays(Reversed(xs));
    ReversedElements(xs);
    UniqueNamesAreUnique(xs);
    NamesTieAsRecords(xs, rules.below);
    NamesOrderRecords<Value>(rules.below);
    SortForgetsOrderExactlyWithoutTies(xs, ByName(rules.below));
  }

  lemma MachineShows(m: Machine, rules: Rules)
    requires TotalPreorder(rules.below) && UniqueNames(OrEmpty(m.publicKeys))
    ensures Shows(MachineForm(rules), MachineSame(), MachineUntied(rules), OtherMachine(), m)
  {
    OtherSet(m.resources, rules);
    OtherSet(m.scopes, rules);
    KeysShow(m.publicKeys, rules);
  }

  lemma EmailShows(e: EmailAssignment, rules: Rules)
    requires TotalPreorder(rules.below)
    ensures Shows(EmailForm(rules), EmailSame(rules), EmailUntied(rules), OtherEmail(), e)
  {
    OtherSet(e.scopes, rules);
  }

  lemma GroupShows(g: GroupAssignment, rules: Rules)
    requires TotalPreorder(rules.below)
    ensures Shows(GroupForm(rules), GroupSame(), GroupUntied(rules), OtherGroup(), g)
  {
    OtherSet(g.scopes, rules);
  }

  lemma TransformedReversed<V>(xs: seq<Named<V>>, transform: V -> V)
    ensures Transformed(Reversed(xs), transform) == Reversed(Transformed(xs, transform))
  {}

  /** Reversed records whose values have the forms they had. */
  lemma ReversedRecordsShow<V(!new)>(xs: seq<Named<V>>, below: Relation<string>)
    requires TotalPreorder(below) && UniqueNames(xs)
    ensures Sort(Reversed(xs), ByName(below)) == Sort(xs, ByName(below)) <==> UntiedNames(xs, below)
  {
    UniqueNamesAreUnique(xs);
    NamesTieAsRecords(xs, below);
    NamesOrderRecords<V>(below);
    SortForgetsOrderExactlyWithoutTies(xs, ByName(below));
  }

  lemma OtherRecordsSayTheSame<V(!new)>(records: Record<V>, same: (V, V) -> bool, other: V -> V)
    requires UniqueNames(OrEmpty(records))
    requires forall i :: 0 <= i < |OrEmpty(records)| ==> same(OrEmpty(records)[i].value, other(OrEmpty(records)[i].value))
    ensures SameSection(records, OtherRecords(records, other), same) && UniqueNames(OrEmpty(OtherRecords(records, other)))
  {
    var xs, ys := OrEmpty(records), OrEmpty(OtherRecords(records, other));
    var n := |xs|;
    assert |ys| == n && forall i :: 0 <= i < n ==> ys[n - 1 - i] == Named(xs[i].name, other(xs[i].value));
    assert forall k :: 0 <= k < n ==> ys[k] == Named(xs[n - 1 - k].name, other(xs[n - 1 - k].value));
    forall name ensures HasName(xs, name) <==> HasName(ys, name) {
      if HasName(xs, name) {
        var i :| 0 <= i < n && xs[i].name == name;
        assert ys[n - 1 - i].name == name;
      }
    }
  }

  lemma MatchByName<V(!new)>(xs: seq<Named<V>>, ys: seq<Named<V>>)
    requires |xs| == |ys| && UniqueNames(xs) && SameElements(xs, ys)
    requires forall i :: 0 <= i < |xs| ==> xs[i].name == ys[i].name
    ensures xs == ys
  {
    forall i | 0 <= i < |xs| ensures xs[i] == ys[i] {
      assert ys[i] in xs;
      var k :| 0 <= k < |xs| && xs[k] == ys[i];
      assert xs[k].name == xs[i].name;
    }
  }

  lemma SameSortedReversed<V(!new)>(xs: seq<Named<V>>, zs: seq<Named<V>>, below: Relation<Named<V>>)
    requires UniqueNames(xs) && UniqueNames(zs) && Sort(Reversed(zs), below) == Sort(xs, below)
    ensures SameElements(xs, zs)
  {
    SortedElements(xs, below);
    ReversedElements(zs);
    SortPermutes(Reversed(zs), below);
    SameMembers(Sort(Reversed(zs), below), Reversed(zs));
  }

  lemma TransformedIsUnique<V>(xs: seq<Named<V>>, transform: V -> V)
    requires UniqueNames(xs)
    ensures UniqueNames(Transformed(xs, transform))
  {}

  lemma TransformedTwice<V>(xs: seq<Named<V>>, other: V -> V, transform: V -> V)
    ensures |Transformed(Transformed(xs, other), transform)| == |Transformed(xs, transform)| == |xs|
    ensures forall i :: 0 <= i < |xs| ==> Transformed(Transformed(xs, other), transform)[i].name == Transformed(xs, transform)[i].name
    ensures Transformed(Transformed(xs, other), transform) == Transformed(xs, transform)
       <==> forall i :: 0 <= i < |xs| ==> transform(other(xs[i].value)) == transform(xs[i].value)
  {
    var zs, tx := Transformed(Transformed(xs, other), transform), Transformed(xs, transform);
    assert forall i :: 0 <= i < |xs| ==>
      zs[i] == Named(xs[i].name, transform(other(xs[i].value))) && tx[i] == Named(xs[i].name, transform(xs[i].value));
    if forall i :: 0 <= i < |xs| ==> transform(other(xs[i].value)) == transform(xs[i].value) {
      assert zs == tx;
    }
  }

  lemma ReversedMatches<V(!new)>(tx: seq<Named<V>>, zs: seq<Named<V>>, below: Relation<string>)
    requires TotalPreorder(below) && UniqueNames(tx) && UniqueNames(zs) && |tx| == |zs|
    requires forall i :: 0 <= i < |tx| ==> zs[i].name == tx[i].name
    ensures Sort(Reversed(zs), ByName(below)) == Sort(tx, ByName(below)) <==> zs == tx && UntiedNames(tx, below)
  {
    ReversedRecordsShow(tx, below);
    if Sort(Reversed(zs), ByName(below)) == Sort(tx, ByName(below)) {
      SameSortedReversed(tx, zs, ByName(below));
      MatchByName(tx, zs);
    }
  }

  /** The forms of a section in the other order are the forms in the given order exactly if all values kept theirs and no names tie. */
  lemma OtherFormsMatch<V(!new)>(xs: seq<Named<V>>, transform: V -> V, other: V -> V, below: Relation<string>)
    requires TotalPreorder(below) && UniqueNames(xs)
    ensures Sort(Transformed(Reversed(Transformed(xs, other)), transform), ByName(below)) == Sort(Transformed(xs, transform), ByName(below))
       <==> UntiedNames(Transformed(xs, transform), below)
            && Transformed(Transformed(xs, other), transform) == Transformed(xs, transform)
  {
    TransformedReversed(Transformed(xs, other), transform);
    TransformedIsUnique(xs, transform);
    TransformedIsUnique(xs, other);
    TransformedIsUnique(Transformed(xs, other), transform);
    TransformedTwice(xs, other, transform);
    ReversedMatches(Transformed(xs, transform), Transformed(Transformed(xs, other), transform), below);
  }

  lemma UntiedTransformed<V>(xs: seq<Named<V>>, transform: V -> V, below: Relation<string>)
    ensures UntiedNames(Transformed(xs, transform), below) <==> UntiedNames(xs, below)
  {
    var tx := Transformed(xs, transform);
    if UntiedNames(tx, below) {
      forall i, j | 0 <= i < |xs| && 0 <= j < |xs| ensures !Tied(below, xs[i].name, xs[j].name) {
        assert !Tied(below, tx[i].name, tx[j].name);
      }
    }
  }

  lemma SectionShows<V(!new)>(records: Record<V>, transform: V -> V, same: (V, V) -> bool, untied: V -> bool, other: V -> V, rules: Rules)
    requires TotalPreorder(rules.below) && UniqueNames(OrEmpty(records))
    requires forall i :: 0 <= i < |OrEmpty(records)| ==> Shows(transform, same, untied, other, OrEmpty(records)[i].value)
    ensures SectionIsShown(records, transform, same, untied, other, rules)
  {
    var xs := OrEmpty(records);
    forall i | 0 <= i < |xs|
      ensures same(xs[i].value, other(xs[i].value)) && (transform(other(xs[i].value)) == transform(xs[i].value) <==> untied(xs[i].value))
    {
      assert Shows(transform, same, untied, other, xs[i].value);
    }
    OtherRecordsSayTheSame(records, same, other);
    TransformedTwice(xs, other, transform);
    UntiedTransformed(xs, transform, rules.below);
    OtherFormsMatch(xs, transform, other, rules.below);
    OtherFormIsSorted(records, transform, other, rules);
  }

  lemma OtherFormIsSorted<V>(records: Record<V>, transform: V -> V, other: V -> V, rules: Rules)
    ensures CanonicalRecords(OtherRecords(records, other), transform, rules)
         == Some(Sort(Transformed(Reversed(Transformed(OrEmpty(records), other)), transform), ByName(rules.below)))
  {
    assert OrEmpty(OtherRecords(records, other)) == Reversed(Transformed(OrEmpty(records), other));
  }

  /** The other order of one section says the same, keeps names unique, and has the same form exactly if nothing ties. */
  ghost predicate SectionIsShown<V>(records: Record<V>, transform: V -> V, same: (V, V) -> bool, untied: V -> bool, other: V -> V, rules: Rules) {
    SameSection(records, OtherRecords(records, other), same) && UniqueNames(OrEmpty(OtherRecords(records, other)))
    && (CanonicalRecords(OtherRecords(records, other), transform, rules) == CanonicalRecords(records, transform, rules)
        <==> UntiedSection(records, untied, rules))
  }

  // ---------------------------------------------------------------------------
  // The whole manifest
  // ---------------------------------------------------------------------------

  /** A manifest that says the same and has another canonical form. */
  ghost predicate OtherForm(b: Manifest, a: Manifest, rules: Rules) {
    ValidManifest(b) && SameManifest(a, b, rules) && CanonicalServerManifest(b, rules) != CanonicalServerManifest(a, rules)
  }

  lemma ResourcesShow(m: Manifest, rules: Rules)
    requires TotalPreorder(rules.below) && ValidManifest(m)
    ensures SectionIsShown(m.connectors, ConnectorForm(rules), ConnectorSame(), ConnectorUntied(rules), OtherConnector(), rules)
    ensures SectionIsShown(m.scopes, Same(), ValueSame(), AlwaysUntied(), Same(), rules)
    ensures SectionIsShown(m.resources, ResourceForm(rules), ResourceSame(), ResourceUntied(rules), OtherResource(), rules)
    ensures SectionIsShown(m.skills, SkillForm(rules), SkillSame(rules), SkillUntied(rules), OtherSkill(), rules)
  {
    forall c { ConnectorShows(c, rules); }
    SectionShows(m.connectors, ConnectorForm(rules), ConnectorSame(), ConnectorUntied(rules), OtherConnector(), rules);
    SectionShows(m.scopes, Same(), ValueSame(), AlwaysUntied(), Same(), rules);
    forall r { ResourceShows(r, rules); }
    SectionShows(m.resources, ResourceForm(rules), ResourceSame(), ResourceUntied(rules), OtherResource(), rules);
    forall s { SkillShows(s, rules); }
    SectionShows(m.skills, SkillForm(rules), SkillSame(rules), SkillUntied(rules), OtherSkill(), rules);
  }

  lemma SubjectsShow(m: Manifest, rules: Rules)
    requires TotalPreorder(rules.below) && ValidManifest(m)
    ensures SectionIsShown(m.machines, MachineForm(rules), MachineSame(), MachineUntied(rules), OtherMachine(), rules)
    ensures SectionIsShown(m.emailAssignments, EmailForm(rules), EmailSame(rules), EmailUntied(rules), OtherEmail(), rules)
    ensures SectionIsShown(m.groupAssignments, GroupForm(rules), GroupSame(), GroupUntied(rules), OtherGroup(), rules)
  {
    var machines := OrEmpty(m.machines);
    forall i | 0 <= i < |machines|
      ensures Shows(MachineForm(rules), MachineSame(), MachineUntied(rules), OtherMachine(), machines[i].value)
    {
      MachineShows(machines[i].value, rules);
    }
    SectionShows(m.machines, MachineForm(rules), MachineSame(), MachineUntied(rules), OtherMachine(), rules);
    forall e { EmailShows(e, rules); }
    SectionShows(m.emailAssignments, EmailForm(rules), EmailSame(rules), EmailUntied(rules), OtherEmail(), rules);
    forall g { GroupShows(g, rules); }
    SectionShows(m.groupAssignments, GroupForm(rules), GroupSame(), GroupUntied(rules), OtherGroup(), rules);
  }

  lemma OtherMachinesAreValid(records: Record<Machine>)
    requires ValidMachines(OrEmpty(records))
    ensures ValidMachines(OrEmpty(OtherRecords(records, OtherMachine())))
  {
    var xs, ys := OrEmpty(records), OrEmpty(OtherRecords(records, OtherMachine()));
    forall k | 0 <= k < |ys| ensures UniqueNames(OrEmpty(ys[k].value.publicKeys)) {
      var keys := OrEmpty(xs[|xs| - 1 - k].value.publicKeys);
      assert ys[k] == Named(xs[|xs| - 1 - k].name, OtherMachine()(xs[|xs| - 1 - k].value));
      assert OrEmpty(ys[k].value.publicKeys) == Reversed(keys);
    }
  }

  lemma OtherManifestSaysTheSame(a: Manifest, rules: Rules)
    requires Proper(rules) && ValidManifest(a)
    ensures ValidManifest(OtherManifest(a)) && SameManifest(a, OtherManifest(a), rules)
  {
    ResourcesShow(a, rules);
    SubjectsShow(a, rules);
    OtherMachinesAreValid(a.machines);
  }

  lemma EmptyAlike<V>(records: Record<V>, other: V -> V)
    ensures OrEmpty(records) == [] <==> OrEmpty(OtherRecords(records, other)) == []
  {
    assert |OrEmpty(OtherRecords(records, other))| == |OrEmpty(records)|;
  }

  lemma NoConnectorsNoTies(records: Record<Connector>, rules: Rules)
    requires OrEmpty(records) == []
    ensures UntiedSection(records, ConnectorUntied(rules), rules)
  {}

  lemma OtherManifestShows(a: Manifest, rules: Rules)
    requires Proper(rules) && ValidManifest(a)
    requires CanonicalServerManifest(OtherManifest(a), rules) == CanonicalServerManifest(a, rules)
    ensures UntiedManifest(a, rules)
  {
    EmptyAlike(a.connectors, OtherConnector());
    if OrEmpty(a.connectors) == [] { NoConnectorsNoTies(a.connectors, rules); }
    ResourcesShow(a, rules);
    SubjectsShow(a, rules);
  }

  /** Some manifest says the same and has another canonical form exactly when two names of one section or two elements of one set tie. */
  lemma FormIgnoresOrderExactlyWithoutTies(a: Manifest, rules: Rules)
    requires Proper(rules) && ValidManifest(a)
    ensures (forall b :: !OtherForm(b, a, rules)) <==> UntiedManifest(a, rules)
  {
    if UntiedManifest(a, rules) {
      forall b ensures !OtherForm(b, a, rules) {
        if ValidManifest(b) { CanonicalFormExactly(a, b, rules); }
      }
    }
    if forall b :: !OtherForm(b, a, rules) {
      OtherManifestSaysTheSame(a, rules);
      assert !OtherForm(OtherManifest(a), a, rules);
      OtherManifestShows(a, rules);
    }
  }
}
