/**
 What each event of a native-discovery session does, said by its effect on the routes, pending selections,
 account choices and views: which entries are accepted, which events end a route, and what then becomes of
 calls and reads through it.
 */
module SessionSteps {
  import opened Commons
  import opened Activation

  // ---------------------------------------------------------------------------
  // Which entries are accepted
  // ---------------------------------------------------------------------------

  /** A bound selector of the entry's connector is on another connection. */
  ghost predicate BoundElsewhere(s: Session, e: Entry) {
    exists x :: x in s.accounts && e.source == Connector(s.accounts[x].connector) && s.accounts[x].connection != e.route
  }

  /** The keys of the routes of every source but this one. */
  ghost function OtherKeys(m: Table, source: Source): set<string> {
    set k | k in m && m[k].ns.source != source
  }

  ghost function OtherSources(s: Session, source: Source): set<Source> {
    SourcesOf(s.tools) + SourcesOf(s.resources) - {source}
  }

  ghost function Uris(n: Names, ns: Namespace, definitions: seq<Definition>): set<string> {
    set d | d in definitions :: n.uri(ns, d.uri)
  }

  /** The local names of the tools are new and differ from each other. */
  ghost predicate NewNames(n: Names, others: set<string>, ns: Namespace, tools: seq<string>) {
    && (forall i :: 0 <= i < |tools| ==> n.tool(ns, tools[i]) !in others)
    && (forall i, j :: 0 <= i < j < |tools| ==> n.tool(ns, tools[i]) != n.tool(ns, tools[j]))
  }

  /** What the session would hold with the entry is within the limits of publication. */
  ghost predicate WithinLimits(n: Names, s: Session, ns: Namespace, e: Entry) {
    && |OtherSources(s, e.source) + (if e.tools == [] && e.resources == [] then {} else {e.source})| <= 8
    && |OtherKeys(s.tools, e.source)| + |e.tools| <= 200
    && |OtherKeys(s.resources, e.source) + Uris(n, ns, e.resources)| <= 200
    && |s.accounts.Keys + (if e.source.Connector? then set x | x in e.selectors else {})| <= 32
  }

  ghost predicate Acceptable(n: Names, s: Session, id: Identity, e: Entry, oversized: bool) {
    var ns := Namespace(id, e.source, e.route);
    !BoundElsewhere(s, e) && NewNames(n, OtherKeys(s.tools, e.source), ns, e.tools) && WithinLimits(n, s, ns, e) && !oversized
  }

  lemma OutsideKeys(m: Table, source: Source)
    ensures Outside(m, {source}).Keys == OtherKeys(m, source) && |Outside(m, {source})| == |OtherKeys(m, source)|
    ensures SourcesOf(Outside(m, {source})) == SourcesOf(m) - {source}
  {
    var other := Outside(m, {source});
    assert other.Keys == OtherKeys(m, source);
    assert |other| == |other.Keys|;
    forall x | x in SourcesOf(m) - {source} ensures x in SourcesOf(other) {
      var k :| k in m && m[k].ns.source == x;
      assert k in other;
    }
  }

  lemma {:induction false} ToolsAddedExactly(n: Names, m: Table, ns: Namespace, tag: int, tools: seq<string>)
    ensures var r := AddTools(n, m, ns, tag, tools);
            (r.Some? <==> NewNames(n, m.Keys, ns, tools)) && (r.Some? ==> |r.value| == |m| + |tools|)
    decreases |tools|
  {
    if tools != [] {
      var local := n.tool(ns, tools[0]);
      var rest := tools[1..];
      if local in m {
        assert !NewNames(n, m.Keys, ns, tools);
      } else {
        var b := Binding(tag, tag, ns, tools[0], false);
        TableWithUri(m, local, b);
        ToolsAddedExactly(n, m[local := b], ns, tag, rest);
        NewNamesOneByOne(n, m.Keys, ns, tools);
      }
    }
  }

  lemma NewNamesOneByOne(n: Names, keys: set<string>, ns: Namespace, tools: seq<string>)
    requires tools != [] && n.tool(ns, tools[0]) !in keys
    ensures NewNames(n, keys, ns, tools) <==> NewNames(n, keys + {n.tool(ns, tools[0])}, ns, tools[1..])
  {
    var rest, local := tools[1..], n.tool(ns, tools[0]);
    assert forall i :: 1 <= i < |tools| ==> tools[i] == rest[i - 1];
    if NewNames(n, keys + {local}, ns, rest) {
      forall i | 0 <= i < |tools| ensures n.tool(ns, tools[i]) !in keys && (i > 0 ==> n.tool(ns, tools[i]) != local) {
        if i > 0 { assert n.tool(ns, rest[i - 1]) !in keys + {local}; }
      }
      forall i, j | 0 <= i < j < |tools| ensures n.tool(ns, tools[i]) != n.tool(ns, tools[j]) {
        if i > 0 { assert n.tool(ns, rest[i - 1]) != n.tool(ns, rest[j - 1]); }
      }
    }
    if NewNames(n, keys, ns, tools) {
      forall i | 0 <= i < |rest| ensures n.tool(ns, rest[i]) !in keys + {local} {
        assert tools[i + 1] == rest[i] && n.tool(ns, tools[0]) != n.tool(ns, tools[i + 1]);
      }
      forall i, j | 0 <= i < j < |rest| ensures n.tool(ns, rest[i]) != n.tool(ns, rest[j]) {
        assert n.tool(ns, tools[i + 1]) != n.tool(ns, tools[j + 1]);
      }
    }
  }

  lemma ResourcesAddedExactly(n: Names, m: Table, ns: Namespace, tag: int, definitions: seq<Definition>)
    ensures var r := AddResources(n, m, ns, tag, definitions);
            r.Keys == m.Keys + Uris(n, ns, definitions) && |r| == |m.Keys + Uris(n, ns, definitions)|
  {
    AddedResources(n, m, ns, tag, definitions);
    var r := AddResources(n, m, ns, tag, definitions);
    forall k | k in Uris(n, ns, definitions) ensures k in r {
      var d :| d in definitions && k == n.uri(ns, d.uri);
      var i :| 0 <= i < |definitions| && definitions[i] == d;
    }
    forall k | k in r ensures k in m.Keys + Uris(n, ns, definitions) {
      if k !in m {
        var i :| 0 <= i < |definitions| && k == n.uri(ns, definitions[i].uri);
        assert definitions[i] in definitions;
      }
    }
    assert r.Keys == m.Keys + Uris(n, ns, definitions);
    assert |r| == |r.Keys|;
  }

  lemma ToolSources(n: Names, m: Table, ns: Namespace, tag: int, tools: seq<string>)
    requires AddTools(n, m, ns, tag, tools).Some?
    ensures SourcesOf(AddTools(n, m, ns, tag, tools).value) == SourcesOf(m) + if tools == [] then {} else {ns.source}
  {
    AddedTools(n, m, ns, tag, tools);
    var r := AddTools(n, m, ns, tag, tools).value;
    if tools != [] { assert r[n.tool(ns, tools[0])].ns == ns; }
    forall x | x in SourcesOf(m) ensures x in SourcesOf(r) {
      var k :| k in m && m[k].ns.source == x;
      assert k in r;
    }
  }

  /** With local URIs that belong to their namespace, a source's definitions hide no route of another source. */
  lemma ResourceSources(n: Names, m: Table, ns: Namespace, tag: int, definitions: seq<Definition>)
    requires n.Injective() && KeyedByUri(n, m)
    ensures var other := Outside(m, {ns.source});
            SourcesOf(AddResources(n, other, ns, tag, definitions)) == SourcesOf(other) + if definitions == [] then {} else {ns.source}
  {
    var other := Outside(m, {ns.source});
    var r := AddResources(n, other, ns, tag, definitions);
    AddedResources(n, other, ns, tag, definitions);
    ResourcesReplaced(n, m, ns, tag, definitions);
    if definitions != [] { assert r[n.uri(ns, definitions[0].uri)].ns == ns; }
    forall x | x in SourcesOf(other) ensures x in SourcesOf(r) {
      var k :| k in other && other[k].ns.source == x;
      assert k in r && r[k] == m[k];
    }
  }

  lemma AccountsCounted(accounts: map<string, Account>, e: Entry)
    ensures var after := Rebound(accounts, e); var keys := accounts.Keys + (if e.source.Connector? then set x | x in e.selectors else {});
            after.Keys == keys && |after| == |keys|
  {
    var after := Rebound(accounts, e);
    assert after.Keys == accounts.Keys + if e.source.Connector? then set x | x in e.selectors else {};
    assert |after| == |after.Keys|;
  }

  lemma DraftedParts(n: Names, s: Session, id: Identity, e: Entry)
    ensures var ns := Namespace(id, e.source, e.route);
            var tools := AddTools(n, Outside(s.tools, {e.source}), ns, s.nextTag, e.tools);
            var draft := Drafted(n, s, id, e);
            && (draft.Some? <==> !BoundElsewhere(s, e) && tools.Some?)
            && (draft.Some? ==>
                  draft.value == Draft(tools.value, AddResources(n, Outside(s.resources, {e.source}), ns, s.nextTag, e.resources),
                                       Rebound(s.accounts, e)))
  {
    assert Rebinds(s.accounts, e) <==> BoundElsewhere(s, e);
  }

  lemma DraftedSources(n: Names, s: Session, id: Identity, e: Entry)
    requires n.Injective() && KeyedByUri(n, s.resources) && Drafted(n, s, id, e).Some?
    ensures Drafted(n, s, id, e).value.Sources()
         == OtherSources(s, e.source) + if e.tools == [] && e.resources == [] then {} else {e.source}
  {
    var ns := Namespace(id, e.source, e.route);
    DraftedParts(n, s, id, e);
    OutsideKeys(s.tools, e.source);
    OutsideKeys(s.resources, e.source);
    ToolSources(n, Outside(s.tools, {e.source}), ns, s.nextTag, e.tools);
    ResourceSources(n, s.resources, ns, s.nextTag, e.resources);
  }

  lemma DraftedSizes(n: Names, s: Session, id: Identity, e: Entry)
    requires Drafted(n, s, id, e).Some?
    ensures var draft, ns := Drafted(n, s, id, e).value, Namespace(id, e.source, e.route);
            && |draft.tools| == |OtherKeys(s.tools, e.source)| + |e.tools|
            && |draft.resources| == |OtherKeys(s.resources, e.source) + Uris(n, ns, e.resources)|
            && |draft.accounts| == |s.accounts.Keys + (if e.source.Connector? then set x | x in e.selectors else {})|
  {
    var ns := Namespace(id, e.source, e.route);
    DraftedParts(n, s, id, e);
    OutsideKeys(s.tools, e.source);
    OutsideKeys(s.resources, e.source);
    ToolsAddedExactly(n, Outside(s.tools, {e.source}), ns, s.nextTag, e.tools);
    ResourcesAddedExactly(n, Outside(s.resources, {e.source}), ns, s.nextTag, e.resources);
    AccountsCounted(s.accounts, e);
  }

  lemma DraftedExactly(n: Names, s: Session, id: Identity, e: Entry)
    ensures var ns := Namespace(id, e.source, e.route);
            Drafted(n, s, id, e).Some? <==> !BoundElsewhere(s, e) && NewNames(n, OtherKeys(s.tools, e.source), ns, e.tools)
  {
    DraftedParts(n, s, id, e);
    OutsideKeys(s.tools, e.source);
    ToolsAddedExactly(n, Outside(s.tools, {e.source}), Namespace(id, e.source, e.route), s.nextTag, e.tools);
  }

  lemma FitsExactly(n: Names, s: Session, id: Identity, e: Entry)
    requires n.Injective() && KeyedByUri(n, s.resources) && Drafted(n, s, id, e).Some?
    ensures Drafted(n, s, id, e).value.Fits() <==> WithinLimits(n, s, Namespace(id, e.source, e.route), e)
  {
    DraftedSources(n, s, id, e);
    DraftedSizes(n, s, id, e);
  }

  lemma PublishedIfDrafted(n: Names, s: Session, id: Identity, e: Entry, oversized: bool)
    ensures Published(n, s, id, e, oversized).1 <==> Drafted(n, s, id, e).Some? && Drafted(n, s, id, e).value.Fits() && !oversized
  {}

  /** An entry takes effect exactly if it names no other connection, no taken tool name, and stays within the limits. */
  lemma AcceptedExactly(n: Names, s: Session, id: Identity, e: Entry, oversized: bool)
    requires n.Injective() && KeyedByUri(n, s.resources)
    ensures Published(n, s, id, e, oversized).1 <==> Acceptable(n, s, id, e, oversized)
  {
    PublishedIfDrafted(n, s, id, e, oversized);
    DraftedExactly(n, s, id, e);
    if Drafted(n, s, id, e).Some? { FitsExactly(n, s, id, e); }
  }

  // ---------------------------------------------------------------------------
  // What an accepted entry changes
  // ---------------------------------------------------------------------------

  lemma {:induction false} OtherUrisLeaveIt(n: Names, m: Table, ns: Namespace, tag: int, definitions: seq<Definition>, k: string)
    requires k in m && forall i :: 0 <= i < |definitions| ==> n.uri(ns, definitions[i].uri) != k
    ensures k in AddResources(n, m, ns, tag, definitions) && AddResources(n, m, ns, tag, definitions)[k] == m[k]
    decreases |definitions|
  {
    if definitions != [] {
      var d, rest := definitions[0], definitions[1..];
      assert forall i :: 0 <= i < |rest| ==> rest[i] == definitions[i + 1];
      OtherUrisLeaveIt(n, m[n.uri(ns, d.uri) := Binding(tag, tag, ns, d.uri, d.app)], ns, tag, rest, k);
    }
  }

  /** No later definition has the same local URI. */
  ghost predicate LastOfItsUri(n: Names, ns: Namespace, definitions: seq<Definition>, i: int) {
    0 <= i < |definitions| && forall j :: i < j < |definitions| ==> n.uri(ns, definitions[j].uri) != n.uri(ns, definitions[i].uri)
  }

  /** Of several definitions with one URI the last is routed. */
  lemma {:induction false} LastDefinitionIsRouted(n: Names, m: Table, ns: Namespace, tag: int, definitions: seq<Definition>, i: int)
    requires LastOfItsUri(n, ns, definitions, i)
    ensures var k, r := n.uri(ns, definitions[i].uri), AddResources(n, m, ns, tag, definitions);
            k in r && r[k] == Binding(tag, tag, ns, definitions[i].uri, definitions[i].app)
    decreases |definitions|
  {
    var d, rest := definitions[0], definitions[1..];
    var m1 := m[n.uri(ns, d.uri) := Binding(tag, tag, ns, d.uri, d.app)];
    assert forall j :: 0 <= j < |rest| ==> rest[j] == definitions[j + 1];
    if i == 0 {
      OtherUrisLeaveIt(n, m1, ns, tag, rest, n.uri(ns, d.uri));
    } else {
      LastDefinitionIsRouted(n, m1, ns, tag, rest, i - 1);
    }
  }

  /** The source's own tools are exactly those of the entry, on new objects that share one record. */
  ghost predicate ToolsAre(n: Names, m: Table, ns: Namespace, tag: int, tools: seq<string>) {
    && (forall k :: Own(m, k, ns.source) <==> exists i :: 0 <= i < |tools| && k == n.tool(ns, tools[i]))
    && (forall i :: 0 <= i < |tools| ==> Live(m, n.tool(ns, tools[i]), Binding(tag, tag, ns, tools[i], false)))
  }

  /** Its own resources are exactly those of the entry, the last of each URI, on new objects that share the same record. */
  ghost predicate ResourcesAre(n: Names, m: Table, ns: Namespace, tag: int, definitions: seq<Definition>) {
    && (forall k :: Own(m, k, ns.source) <==> exists i :: 0 <= i < |definitions| && k == n.uri(ns, definitions[i].uri))
    && (forall i :: LastOfItsUri(n, ns, definitions, i) ==>
          Live(m, n.uri(ns, definitions[i].uri), Binding(tag, tag, ns, definitions[i].uri, definitions[i].app)))
  }

  /** The routes of the entry's source are those of its definitions; all others stay. */
  ghost predicate RoutesReplaced(n: Names, s: Session, t: Session, ns: Namespace, e: Entry) {
    && Outside(t.tools, {e.source}) == Outside(s.tools, {e.source})
    && Outside(t.resources, {e.source}) == Outside(s.resources, {e.source})
    && ToolsAre(n, t.tools, ns, s.nextTag, e.tools) && ResourcesAre(n, t.resources, ns, s.nextTag, e.resources)
  }

  /** A connector's selectors are bound to its account, and no longer pending; all other choices and selections stay. */
  ghost predicate SelectorsBound(s: Session, t: Session, e: Entry) {
    && (forall x :: x in t.accounts <==> x in s.accounts || (e.source.Connector? && x in e.selectors))
    && (forall x :: x in t.accounts ==>
          t.accounts[x] == if e.source.Connector? && x in e.selectors then Account(e.source.key, e.route) else s.accounts[x])
    && (forall x :: x in t.pending <==> x in s.pending && !(e.source.Connector? && x in e.selectors))
    && (forall x :: x in t.pending ==> t.pending[x] == s.pending[x])
  }

  lemma AppliedTools(n: Names, m: Table, ns: Namespace, tag: int, tools: seq<string>)
    requires AddTools(n, Outside(m, {ns.source}), ns, tag, tools).Some?
    ensures ToolsAre(n, AddTools(n, Outside(m, {ns.source}), ns, tag, tools).value, ns, tag, tools)
  {
    ToolsReplaced(n, m, ns, tag, tools);
    AddedTools(n, Outside(m, {ns.source}), ns, tag, tools);
  }

  lemma AppliedResources(n: Names, m: Table, ns: Namespace, tag: int, definitions: seq<Definition>)
    requires n.Injective() && KeyedByUri(n, m)
    ensures ResourcesAre(n, AddResources(n, Outside(m, {ns.source}), ns, tag, definitions), ns, tag, definitions)
  {
    ResourcesReplaced(n, m, ns, tag, definitions);
    forall i | LastOfItsUri(n, ns, definitions, i)
      ensures Live(AddResources(n, Outside(m, {ns.source}), ns, tag, definitions), n.uri(ns, definitions[i].uri),
                   Binding(tag, tag, ns, definitions[i].uri, definitions[i].app))
    {
      LastDefinitionIsRouted(n, Outside(m, {ns.source}), ns, tag, definitions, i);
    }
  }

  lemma PublishedTables(n: Names, s: Session, id: Identity, e: Entry, oversized: bool)
    requires Published(n, s, id, e, oversized).1
    ensures var t, ns := Published(n, s, id, e, oversized).0, Namespace(id, e.source, e.route);
            && Some(t.tools) == AddTools(n, Outside(s.tools, {e.source}), ns, s.nextTag, e.tools)
            && t.resources == AddResources(n, Outside(s.resources, {e.source}), ns, s.nextTag, e.resources)
  {}

  lemma AppliedRoutes(n: Names, s: Session, id: Identity, e: Entry, oversized: bool)
    requires n.Injective() && KeyedByUri(n, s.resources) && Published(n, s, id, e, oversized).1
    ensures RoutesReplaced(n, s, Published(n, s, id, e, oversized).0, Namespace(id, e.source, e.route), e)
  {
    var ns := Namespace(id, e.source, e.route);
    PublicationReplacesOneSource(n, s, id, e, oversized);
    PublishedTables(n, s, id, e, oversized);
    AppliedTools(n, s.tools, ns, s.nextTag, e.tools);
    AppliedResources(n, s.resources, ns, s.nextTag, e.resources);
  }

  lemma AppliedSelectors(n: Names, s: Session, id: Identity, e: Entry, oversized: bool)
    requires Published(n, s, id, e, oversized).1
    ensures SelectorsBound(s, Published(n, s, id, e, oversized).0, e)
  {
    PublishedAccountsExactly(n, s, id, e, oversized);
  }

  /** An acceptable entry takes effect as a whole; any other changes nothing. */
  lemma PublishesExactly(n: Names, s: Session, e: Entry, oversized: bool)
    requires n.Injective() && KeyedByUri(n, s.resources) && Enabled(s, Publishes(e, oversized))
    ensures var t, id := Step(n, s, Publishes(e, oversized)), s.identity.value;
            && t.identity == s.identity && t.views == s.views && t.nextTag == s.nextTag + 1
            && if Acceptable(n, s, id, e, oversized)
               then RoutesReplaced(n, s, t, Namespace(id, e.source, e.route), e) && SelectorsBound(s, t, e)
               else t == s.(nextTag := s.nextTag + 1)
  {
    var id := s.identity.value;
    AcceptedExactly(n, s, id, e, oversized);
    if Acceptable(n, s, id, e, oversized) {
      AppliedRoutes(n, s, id, e, oversized);
      AppliedSelectors(n, s, id, e, oversized);
    }
  }

  // ---------------------------------------------------------------------------
  // Responses, resets and removals
  // ---------------------------------------------------------------------------

  /** The events of a response: its identity is adopted, then its resolved entries come in turn. */
  function Response(id: Identity, entries: seq<Entry>, oversized: seq<bool>): seq<Event>
    requires |oversized| == |entries|
  {
    [Adopts(id)] + InTurn(entries, oversized)
  }

  function InTurn(entries: seq<Entry>, oversized: seq<bool>): seq<Event>
    requires |oversized| == |entries|
  {
    seq(|entries|, i requires 0 <= i < |entries| => Publishes(entries[i], oversized[i]))
  }

  lemma {:induction false} EntriesInTurn(n: Names, s: Session, id: Identity, entries: seq<Entry>, oversized: seq<bool>)
    requires |oversized| == |entries| && s.identity == Some(id)
    ensures Runs(n, s, InTurn(entries, oversized), PublishedAll(n, s, id, entries, oversized))
    decreases |entries|
  {
    if entries != [] {
      EntriesInTurn(n, Published(n, s, id, entries[0], oversized[0]).0, id, entries[1..], oversized[1..]);
      assert InTurn(entries, oversized)[1..] == InTurn(entries[1..], oversized[1..]);
    }
  }

  /** Applying a response is the run of its events: no entry is left out, repeated or put before another. */
  lemma ResponseIsARun(n: Names, s: Session, id: Identity, entries: seq<Entry>, oversized: seq<bool>)
    requires |oversized| == |entries|
    ensures Runs(n, s, Response(id, entries, oversized), PublishedAll(n, Adopted(s, id), id, entries, oversized))
  {
    EntriesInTurn(n, Adopted(s, id), id, entries, oversized);
    assert Response(id, entries, oversized)[1..] == InTurn(entries, oversized);
  }

  ghost predicate Emptied(t: Session) {
    t.tools == map[] && t.resources == map[] && t.accounts == map[] && t.pending == map[]
  }

  /** A reset or another identity empties the session, the same identity changes nothing; tokens of views are kept but open nothing. */
  lemma IdentityChangesExactly(n: Names, s: Session, id: Identity)
    ensures var t := Step(n, s, Resets); Emptied(t) && t.identity == None && t.views == s.views && t.nextTag == s.nextTag
    ensures var t := Step(n, s, Adopts(id));
            && t.identity == Some(id) && t.views == s.views && t.nextTag == s.nextTag
            && if s.identity.Some? && s.identity.value != id then Emptied(t)
               else t.tools == s.tools && t.resources == s.resources && t.accounts == s.accounts && t.pending == s.pending
  {}

  /**
   A removal takes exactly the routes of the named sources and the pending selections that are theirs or offer
   one of their connectors; account choices, views and identity stay.
   */
  lemma RemovesExactly(n: Names, s: Session, sources: set<Source>)
    ensures var t := Step(n, s, Removes(sources));
            && (forall k, b :: Live(t.tools, k, b) <==> Live(s.tools, k, b) && b.ns.source !in sources)
            && (forall k, b :: Live(t.resources, k, b) <==> Live(s.resources, k, b) && b.ns.source !in sources)
            && (forall x :: x in t.pending <==> x in s.pending && !Concerns(sources, x, s.pending[x]))
            && (forall x :: x in t.pending ==> t.pending[x] == s.pending[x])
            && t.identity == s.identity && t.accounts == s.accounts && t.views == s.views && t.nextTag == s.nextTag
  {
    forall x | x in s.pending { TouchesWhatItConcerns(sources, x, s.pending[x]); }
  }

  // ---------------------------------------------------------------------------
  // The events that end a route
  // ---------------------------------------------------------------------------

  /** A reset, another identity, the removal of the source, or an accepted entry of it. */
  ghost predicate EndsRoutes(n: Names, s: Session, event: Event, source: Source)
    requires Enabled(s, event)
  {
    match event
    case Resets => true
    case Adopts(id) => s.identity.Some? && s.identity.value != id
    case Removes(sources) => source in sources
    case Publishes(e, oversized) => e.source == source && Acceptable(n, s, s.identity.value, e, oversized)
    case _ => false
  }

  /** In a replaced table a route has ended exactly if it was the source's own. */
  lemma ReplacedEnds(m: Table, m': Table, ns: Namespace, tag: int, k: string, b: Binding)
    requires Replaced(m, m', ns, tag) && Live(m, k, b) && b.tag < tag
    ensures !Live(m', k, b) <==> b.ns.source == ns.source
  {}

  lemma PublicationEndsRoutes(n: Names, s: Session, e: Entry, oversized: bool, k: string, b: Binding)
    requires n.Injective() && Inv(n, s) && s.identity.Some?
    ensures var t := Published(n, s, s.identity.value, e, oversized).0;
            var ends := e.source == b.ns.source && Acceptable(n, s, s.identity.value, e, oversized);
            && (Live(s.tools, k, b) ==> (!Live(t.tools, k, b) <==> ends))
            && (Live(s.resources, k, b) ==> (!Live(t.resources, k, b) <==> ends))
  {
    var id := s.identity.value;
    AcceptedExactly(n, s, id, e, oversized);
    PublicationReplacesOneSource(n, s, id, e, oversized);
    var (t, ok) := Published(n, s, id, e, oversized);
    if ok {
      var ns := Namespace(id, e.source, e.route);
      if Live(s.tools, k, b) { ReplacedEnds(s.tools, t.tools, ns, s.nextTag, k, b); }
      if Live(s.resources, k, b) { ReplacedEnds(s.resources, t.resources, ns, s.nextTag, k, b); }
    }
  }

  lemma LinksEndNoRoute(n: Names, m: Table, b: Binding, tag: int, links: seq<string>, oversized: bool)
    requires |m| <= MAX_RESOURCES
    ensures var r := Linked(n, m, b, tag, links, oversized); r.Some? ==> forall k :: k in m ==> k in r.value && r.value[k] == m[k]
  {
    MappedLinks(n, m, b, tag, links);
  }

  lemma ResultsEndNoRoute(n: Names, s: Session, event: Event, k: string, b: Binding)
    requires |s.resources| <= MAX_RESOURCES && Enabled(s, event) && (event.CallReturns? || event.ReadReturns?)
    ensures Step(n, s, event).tools == s.tools
    ensures Live(s.resources, k, b) ==> Live(Step(n, s, event).resources, k, b)
  {
    match event
    case CallReturns(_, via, links, oversized) => LinksEndNoRoute(n, s.resources, via, s.nextTag, links, oversized);
    case ReadReturns(uri, via, links, bindView, oversized) =>
      LinksEndNoRoute(n, s.resources, via, ViewAdded(s, uri, via, bindView).nextTag, links, oversized);
  }

  /** A route ends by exactly these events; late results, offers, other sources and refused entries leave it alone. */
  lemma RoutesEndExactly(n: Names, s: Session, event: Event, k: string, b: Binding)
    requires n.Injective() && Inv(n, s) && Enabled(s, event)
    ensures Live(s.tools, k, b) ==> (!Live(Step(n, s, event).tools, k, b) <==> EndsRoutes(n, s, event, b.ns.source))
    ensures Live(s.resources, k, b) ==> (!Live(Step(n, s, event).resources, k, b) <==> EndsRoutes(n, s, event, b.ns.source))
  {
    match event
    case Resets => IdentityChangesExactly(n, s, Identity("", ""));
    case Adopts(id) => IdentityChangesExactly(n, s, id);
    case Publishes(e, oversized) => PublicationEndsRoutes(n, s, e, oversized, k, b);
    case Removes(sources) => RemovesExactly(n, s, sources);
    case Offers(_, _) =>
    case CallReturns(_, _, _, _) => ResultsEndNoRoute(n, s, event, k, b);
    case ReadReturns(_, _, _, _, _) => ResultsEndNoRoute(n, s, event, k, b);
  }

  /**
   After any of these events every call and read that was sent through a route of the source fails, in every
   later session, and changes nothing.
   */
  lemma EndedForGood(n: Names, s: Session, event: Event, events: seq<Event>, s': Session, key: string, b: Binding,
                     links: seq<string>, bindView: bool, oversized: bool)
    requires n.Injective() && Inv(n, s) && Enabled(s, event) && EndsRoutes(n, s, event, b.ns.source) && b.tag < s.nextTag
    requires Runs(n, Step(n, s, event), events, s')
    ensures CallFinished(n, s', key, b, links, oversized) == (s', false)
    ensures ReadFinished(n, s', key, b, links, bindView, oversized) == (s', false)
  {
    RoutesEndExactly(n, s, event, key, b);
    StepMakesNewObjects(n, s, event);
    LateResultsAreInert(n, Step(n, s, event), events, s', key, b, links, bindView, oversized);
  }

  ghost predicate NoneEndsRoutes(n: Names, s: Session, events: seq<Event>, source: Source)
    decreases |events|
  {
    events != [] ==>
      Enabled(s, events[0]) && !EndsRoutes(n, s, events[0], source) && NoneEndsRoutes(n, Step(n, s, events[0]), events[1..], source)
  }

  /** Conversely a route stays the published one over every run without such an event. */
  lemma {:induction false} RoutesStay(n: Names, s: Session, events: seq<Event>, s': Session, key: string, b: Binding)
    requires n.Injective() && Inv(n, s) && Runs(n, s, events, s') && NoneEndsRoutes(n, s, events, b.ns.source)
    ensures Live(s.tools, key, b) ==> Live(s'.tools, key, b)
    ensures Live(s.resources, key, b) ==> Live(s'.resources, key, b)
    decreases |events|
  {
    if events != [] {
      RoutesEndExactly(n, s, events[0], key, b);
      StepKeepsInv(n, s, events[0]);
      RoutesStay(n, Step(n, s, events[0]), events[1..], s', key, b);
    }
  }

  // ---------------------------------------------------------------------------
  // What a timely result adds
  // ---------------------------------------------------------------------------

  /** Every new local URI routes its link through the binding's record, as a new object that is no app. */
  ghost predicate LinksRouted(n: Names, m: Table, m': Table, b: Binding, tag: int, links: seq<string>) {
    && m'.Keys == m.Keys + LocalUris(n, b, links)
    && (forall k :: k in m ==> m'[k] == m[k])
    && (forall link :: link in links && n.uri(b.ns, link) !in m ==>
          Live(m', n.uri(b.ns, link), Binding(tag, b.publication, b.ns, link, false)))
  }

  lemma MappedExactly(n: Names, m: Table, b: Binding, tag: int, links: seq<string>)
    requires n.Injective() && |m| <= MAX_RESOURCES && MapLinks(n, m, b, tag, links).Some?
    ensures LinksRouted(n, m, MapLinks(n, m, b, tag, links).value, b, tag, links)
  {
    MappedLinks(n, m, b, tag, links);
    RoutedUris(n, m, b, tag, links);
    var r := MapLinks(n, m, b, tag, links).value;
    forall link | link in links && n.uri(b.ns, link) !in m
      ensures Live(r, n.uri(b.ns, link), Binding(tag, b.publication, b.ns, link, false))
    {
      var k := n.uri(b.ns, link);
      assert k in LocalUris(n, b, links);
      assert n.uri(b.ns, r[k].upstream) == n.uri(b.ns, link);
    }
  }

  ghost predicate HasRoom(n: Names, m: Table, b: Binding, links: seq<string>) {
    |m.Keys + LocalUris(n, b, links)| <= 2000
  }

  lemma LinkedExactly(n: Names, m: Table, b: Binding, tag: int, links: seq<string>, oversized: bool)
    requires n.Injective() && |m| <= MAX_RESOURCES
    ensures var r := Linked(n, m, b, tag, links, oversized);
            (r.Some? <==> HasRoom(n, m, b, links) && !oversized) && (r.Some? ==> LinksRouted(n, m, r.value, b, tag, links))
  {
    LinksFitExactly(n, m, b, tag, links);
    if MapLinks(n, m, b, tag, links).Some? { MappedExactly(n, m, b, tag, links); }
  }

  /** What a result leaves behind: exactly its links, or nothing. */
  lemma ResultsAddExactly(n: Names, s: Session, name: string, b: Binding, links: seq<string>, oversized: bool)
    requires n.Injective() && |s.resources| <= MAX_RESOURCES && Enabled(s, CallReturns(name, b, links, oversized))
    ensures var t := Step(n, s, CallReturns(name, b, links, oversized));
            if Live(s.tools, name, b) && HasRoom(n, s.resources, b, links) && !oversized
            then t == s.(resources := t.resources, nextTag := s.nextTag + 1)
                 && LinksRouted(n, s.resources, t.resources, b, s.nextTag, links)
            else t == s
  {
    LinkedExactly(n, s.resources, b, s.nextTag, links, oversized);
  }

  // ---------------------------------------------------------------------------
  // Views
  // ---------------------------------------------------------------------------

  lemma {:induction false} FoundExactly(views: seq<View>, resources: Table, token: int, v: View)
    requires forall i, j :: 0 <= i < j < |views| ==> views[i].token < views[j].token
    ensures FindView(views, resources, token) == Some(v) <==>
              v in views && v.token == token && Live(resources, v.uri, v.binding) && v.binding.ns.source.Resource?
    decreases |views|
  {
    if views != [] {
      var rest := views[1..];
      assert forall i :: 0 <= i < |rest| ==> rest[i] == views[i + 1];
      FoundExactly(rest, resources, token, v);
      assert v in views <==> v == views[0] || v in rest;
      if v in rest {
        var i :| 0 <= i < |rest| && rest[i] == v;
        assert views[0].token < views[i + 1].token;
      }
    }
  }

  /** A token opens exactly the view it was given for, while that view's resource is still the published one. */
  lemma OpensExactly(s: Session, token: int, v: View)
    requires Tokens(s)
    ensures UiView(s, token) == Some(v) <==>
              v in s.views && v.token == token && Live(s.resources, v.uri, v.binding) && v.binding.ns.source.Resource?
  {
    FoundExactly(s.views, s.resources, token, v);
  }

  ghost predicate AllLive(m: Table, views: seq<View>) {
    forall v :: v in views ==> Live(m, v.uri, v.binding)
  }

  lemma {:induction false} LiveViewsExactly(m: Table, views: seq<View>)
    ensures forall v :: v in LiveViews(m, views) <==> v in views && Live(m, v.uri, v.binding)
    ensures |LiveViews(m, views)| <= |views|
    ensures if AllLive(m, views) then LiveViews(m, views) == views else |LiveViews(m, views)| < |views|
    decreases |views|
  {
    if views != [] {
      assert views == [views[0]] + views[1..];
      LiveViewsExactly(m, views[1..]);
      assert AllLive(m, views) <==> Live(m, views[0].uri, views[0].binding) && AllLive(m, views[1..]);
    }
  }

  /** The view is stale, or the oldest of 128 that are all live. */
  ghost predicate Evicted(s: Session, v: View) {
    !Live(s.resources, v.uri, v.binding) || (|s.views| == 128 && AllLive(s.resources, s.views) && v == s.views[0])
  }

  /** The live views but for the oldest of 128. */
  lemma KeptViews(m: Table, views: seq<View>, v: View)
    requires (forall i, j :: 0 <= i < j < |views| ==> views[i].token < views[j].token) && |views| <= 128
    ensures var live := LiveViews(m, views);
            v in (if 128 <= |live| then live[1..] else live)
            <==> v in views && Live(m, v.uri, v.binding) && !(|views| == 128 && AllLive(m, views) && v == views[0])
  {
    LiveViewsExactly(m, views);
    if |LiveViews(m, views)| == 128 {
      assert views == [views[0]] + views[1..];
      if v in views[1..] {
        var i :| 0 <= i < |views[1..]| && views[1..][i] == v;
        assert views[i + 1] == v && views[0].token < views[i + 1].token;
      }
    }
  }

  /** A read of an app resource through its published route adds one view and keeps the others that are not evicted. */
  lemma ViewAddedExactly(s: Session, uri: string, b: Binding, bindView: bool)
    requires Tokens(s) && |s.views| <= 128
    ensures var t, added := ViewAdded(s, uri, b, bindView), View(s.nextTag, uri, b);
            && t.(views := s.views, nextTag := s.nextTag) == s
            && if bindView && b.ns.source.Resource? && b.app
               then (forall v :: v in t.views <==> v == added || (v in s.views && !Evicted(s, v))) && t.nextTag == s.nextTag + 1
               else t == s
  {
    forall v { KeptViews(s.resources, s.views, v); }
  }

  /** What a read leaves behind: its view, and exactly its links or none; a read through a dead route leaves nothing. */
  lemma ReadsAddExactly(n: Names, s: Session, uri: string, b: Binding, links: seq<string>, bindView: bool, oversized: bool)
    requires n.Injective() && |s.resources| <= MAX_RESOURCES && Enabled(s, ReadReturns(uri, b, links, bindView, oversized))
    ensures var t := Step(n, s, ReadReturns(uri, b, links, bindView, oversized));
            var viewed := ViewAdded(s, uri, b, bindView);
            if !Live(s.resources, uri, b) then t == s
            else if HasRoom(n, s.resources, b, links) && !oversized
            then t == viewed.(resources := t.resources, nextTag := viewed.nextTag + 1)
                 && LinksRouted(n, s.resources, t.resources, b, viewed.nextTag, links)
            else t == viewed
  {
    LinkedExactly(n, s.resources, b, ViewAdded(s, uri, b, bindView).nextTag, links, oversized);
    ViewsKeepRoutes(s, uri, b, bindView);
  }

  lemma ViewsKeepRoutes(s: Session, uri: string, b: Binding, bindView: bool)
    ensures ViewAdded(s, uri, b, bindView).resources == s.resources && ViewAdded(s, uri, b, bindView).tools == s.tools
  {}

  /** After such a read its token opens the view, and every token opens what it opened unless its view was evicted. */
  lemma ReadOpensItsView(n: Names, s: Session, uri: string, b: Binding, links: seq<string>, oversized: bool, v: View)
    requires n.Injective() && Inv(n, s) && Enabled(s, ReadReturns(uri, b, links, true, oversized))
    requires Live(s.resources, uri, b) && b.ns.source.Resource? && b.app
    ensures var t := Step(n, s, ReadReturns(uri, b, links, true, oversized));
            && UiView(t, s.nextTag) == Some(View(s.nextTag, uri, b))
            && (UiView(s, v.token) == Some(v) && !Evicted(s, v) ==> UiView(t, v.token) == Some(v))
  {
    var event := ReadReturns(uri, b, links, true, oversized);
    var t := Step(n, s, event);
    StepKeepsInv(n, s, event);
    ReadsAddExactly(n, s, uri, b, links, true, oversized);
    ViewAddedExactly(s, uri, b, true);
    ResultsEndNoRoute(n, s, event, uri, b);
    ResultsEndNoRoute(n, s, event, v.uri, v.binding);
    OpensExactly(t, s.nextTag, View(s.nextTag, uri, b));
    OpensExactly(s, v.token, v);
    OpensExactly(t, v.token, v);
  }
}
