/**
 The limit of 200 resources of apps/goose-extension/src/activation.ts: publication keeps it, links
 in results do not. Which results take a session past it, which sessions are reached that way, and
 how long the sources that are not linked can then not be published.
 */
module ResourceLimit {
  import opened Commons
  import opened Activation

  // ---------------------------------------------------------------------------
  // Passing the limit
  // ---------------------------------------------------------------------------

  ghost predicate FillsPast(n: Names, s: Session, b: Binding, links: seq<string>) {
    MAX_PUBLISHED_RESOURCES < |s.resources.Keys + LocalUris(n, b, links)| <= MAX_RESOURCES
  }

  /** An accepted result whose links make more than 200 resources together with the table. */
  ghost predicate LinksPast(n: Names, s: Session, event: Event) {
    match event
    case CallReturns(name, b, links, oversized) => Live(s.tools, name, b) && !oversized && FillsPast(n, s, b, links)
    case ReadReturns(uri, b, links, _, oversized) => Live(s.resources, uri, b) && !oversized && FillsPast(n, s, b, links)
    case _ => false
  }

  lemma SizeOfTable(m: Table)
    ensures |m| == |m.Keys|
  {}

  /** Only links take a session past 200 resources, and exactly those that the table of 2000 has room for. */
  lemma PassesTheLimitExactly(n: Names, s: Session, event: Event)
    requires Enabled(s, event) && |s.resources| <= MAX_PUBLISHED_RESOURCES
    ensures |Step(n, s, event).resources| > MAX_PUBLISHED_RESOURCES <==> LinksPast(n, s, event)
  {
    SizeOfTable(Step(n, s, event).resources);
    match event
    case Removes(sources) => OutsideIsSmaller(s.resources, sources);
    case CallReturns(name, b, links, oversized) =>
      if Live(s.tools, name, b) { TimelyResultsAreAccepted(n, s, name, b, links, oversized); }
    case ReadReturns(uri, b, links, bindView, oversized) =>
      if Live(s.resources, uri, b) { TimelyReadsAreAccepted(n, s, uri, b, links, bindView, oversized); }
    case _ =>
  }

  /** The session and every session after each of the events has at most 200 resources. */
  ghost predicate StaysWithin(n: Names, s: Session, events: seq<Event>)
    decreases |events|
  {
    && |s.resources| <= MAX_PUBLISHED_RESOURCES
    && (events != [] ==> Enabled(s, events[0]) && StaysWithin(n, Step(n, s, events[0]), events[1..]))
  }

  ghost predicate NoneLinksPast(n: Names, s: Session, events: seq<Event>)
    decreases |events|
  {
    events != [] ==>
      Enabled(s, events[0]) && !LinksPast(n, s, events[0]) && NoneLinksPast(n, Step(n, s, events[0]), events[1..])
  }

  /** So a run keeps the limit throughout exactly if no result links past it. */
  lemma {:induction false} LimitIsKeptExactly(n: Names, s: Session, events: seq<Event>, s': Session)
    requires |s.resources| <= MAX_PUBLISHED_RESOURCES && Runs(n, s, events, s')
    ensures StaysWithin(n, s, events) <==> NoneLinksPast(n, s, events)
    decreases |events|
  {
    if events != [] {
      var t := Step(n, s, events[0]);
      PassesTheLimitExactly(n, s, events[0]);
      if |t.resources| <= MAX_PUBLISHED_RESOURCES { LimitIsKeptExactly(n, t, events[1..], s'); }
    }
  }

  // ---------------------------------------------------------------------------
  // Sources crowded out
  // ---------------------------------------------------------------------------

  /** The routes of other sources alone are more than publication allows. */
  ghost predicate CrowdedOut(s: Session, source: Source) {
    |Outside(s.resources, {source})| > MAX_PUBLISHED_RESOURCES
  }

  lemma ResourcesAreAdded(n: Names, m: Table, ns: Namespace, tag: int, definitions: seq<Definition>)
    ensures |m| <= |AddResources(n, m, ns, tag, definitions)|
  {
    AddedResources(n, m, ns, tag, definitions);
    SubsetIsSmaller(m.Keys, AddResources(n, m, ns, tag, definitions).Keys);
  }

  /** A source that is crowded out cannot be published, not even without resources of its own. */
  lemma CrowdedOutIsRefused(n: Names, s: Session, id: Identity, e: Entry, oversized: bool)
    requires CrowdedOut(s, e.source)
    ensures !Published(n, s, id, e, oversized).1
  {
    ResourcesAreAdded(n, Outside(s.resources, {e.source}), Namespace(id, e.source, e.route), s.nextTag, e.resources);
  }

  /** A reset, another identity, a removal that leaves 200 routes of other sources, or the publication of another source. */
  ghost predicate MakesRoom(n: Names, s: Session, event: Event, source: Source)
    requires Enabled(s, event)
  {
    match event
    case Resets => true
    case Adopts(id) => s.identity.Some? && s.identity.value != id
    case Removes(sources) => |Outside(s.resources, sources + {source})| <= MAX_PUBLISHED_RESOURCES
    case Publishes(e, oversized) => e.source != source && Published(n, s, s.identity.value, e, oversized).1
    case _ => false
  }

  lemma OutsideGrows(m: Table, m': Table, source: Source)
    requires forall k :: k in m ==> k in m' && m'[k] == m[k]
    ensures |Outside(m, {source})| <= |Outside(m', {source})|
  {
    SubsetIsSmaller(Outside(m, {source}).Keys, Outside(m', {source}).Keys);
  }

  lemma LinksKeepRoutes(n: Names, m: Table, b: Binding, tag: int, links: seq<string>, oversized: bool, source: Source)
    requires |m| <= MAX_RESOURCES
    ensures var r := Linked(n, m, b, tag, links, oversized); r.Some? ==> |Outside(m, {source})| <= |Outside(r.value, {source})|
  {
    MappedLinks(n, m, b, tag, links);
    var r := Linked(n, m, b, tag, links, oversized);
    if r.Some? { OutsideGrows(m, r.value, source); }
  }

  lemma PublicationMakesRoom(n: Names, s: Session, id: Identity, e: Entry, oversized: bool, source: Source)
    requires CrowdedOut(s, source)
    ensures var (t, ok) := Published(n, s, id, e, oversized); (ok ==> e.source != source) && (ok <==> !CrowdedOut(t, source))
  {
    if e.source == source { CrowdedOutIsRefused(n, s, id, e, oversized); }
    OutsideIsSmaller(Published(n, s, id, e, oversized).0.resources, {source});
  }

  /** Until one of these events the source stays crowded out: late results and refused entries make no room. */
  lemma CrowdedOutUntilExactly(n: Names, s: Session, event: Event, source: Source)
    requires Enabled(s, event) && |s.resources| <= MAX_RESOURCES && CrowdedOut(s, source)
    ensures !CrowdedOut(Step(n, s, event), source) <==> MakesRoom(n, s, event, source)
  {
    match event
    case Publishes(e, oversized) => PublicationMakesRoom(n, s, s.identity.value, e, oversized, source);
    case Removes(sources) =>
      assert Outside(Outside(s.resources, sources), {source}) == Outside(s.resources, sources + {source});
    case CallReturns(_, b, links, oversized) => LinksKeepRoutes(n, s.resources, b, s.nextTag, links, oversized, source);
    case ReadReturns(uri, b, links, bindView, oversized) =>
      LinksKeepRoutes(n, s.resources, b, ViewAdded(s, uri, b, bindView).nextTag, links, oversized, source);
    case _ =>
      assert Outside(map[], {source}) == map[];
  }

  ghost predicate NoneMakesRoom(n: Names, s: Session, events: seq<Event>, source: Source)
    decreases |events|
  {
    events != [] ==>
      Enabled(s, events[0]) && !MakesRoom(n, s, events[0], source) && NoneMakesRoom(n, Step(n, s, events[0]), events[1..], source)
  }

  /** Over every such run no entry of the source is published. */
  lemma {:induction false} RefusedUntilRoom(n: Names, s: Session, events: seq<Event>, s': Session, id: Identity, e: Entry, oversized: bool)
    requires |s.resources| <= MAX_RESOURCES && CrowdedOut(s, e.source)
    requires Runs(n, s, events, s') && NoneMakesRoom(n, s, events, e.source)
    ensures !Published(n, s', id, e, oversized).1
    decreases |events|
  {
    if events == [] {
      CrowdedOutIsRefused(n, s, id, e, oversized);
    } else {
      CrowdedOutUntilExactly(n, s, events[0], e.source);
      StepMakesNewObjects(n, s, events[0]);
      RefusedUntilRoom(n, Step(n, s, events[0]), events[1..], s', id, e, oversized);
    }
  }

  // ---------------------------------------------------------------------------
  // A session filled by the results of one tool
  // ---------------------------------------------------------------------------

  /** The most content items that a result can have. */
  const MAX_CONTENT := 100

  /** Upstream URIs that differ in length. */
  function Link(k: nat): string {
    "a:" + seq(k, _ => 'x')
  }

  function LinksFrom(k: nat): seq<string> {
    seq(MAX_CONTENT, i requires 0 <= i => Link(k + i))
  }

  /** The local URIs of the first links. */
  function Uris(n: Names, ns: Namespace, size: nat): set<string> {
    set k: nat | k < size :: n.uri(ns, Link(k))
  }

  lemma LinksDiffer(k: nat, l: nat)
    ensures Link(k) == Link(l) ==> k == l
  {
    assert |Link(k)| == k + 2 && |Link(l)| == l + 2;
  }

  lemma {:induction false} UrisDiffer(n: Names, ns: Namespace, size: nat)
    requires n.Injective()
    ensures |Uris(n, ns, size)| == size
  {
    if size == 0 {
      assert Uris(n, ns, size) == {};
    } else {
      UrisDiffer(n, ns, size - 1);
      var last := n.uri(ns, Link(size - 1));
      assert Uris(n, ns, size) == Uris(n, ns, size - 1) + {last};
      forall k: nat | k < size - 1 ensures n.uri(ns, Link(k)) != last { LinksDiffer(k, size - 1); }
      assert last !in Uris(n, ns, size - 1);
    }
  }

  lemma MoreUris(n: Names, b: Binding, size: nat)
    ensures Uris(n, b.ns, size) + LocalUris(n, b, LinksFrom(size)) == Uris(n, b.ns, size + MAX_CONTENT)
  {
    var links := LinksFrom(size);
    forall k: nat | size <= k < size + MAX_CONTENT ensures n.uri(b.ns, Link(k)) in LocalUris(n, b, links) {
      assert links[k - size] == Link(k);
    }
    forall link | link in links ensures n.uri(b.ns, link) in Uris(n, b.ns, size + MAX_CONTENT) {
      var i :| 0 <= i < |links| && links[i] == link;
      assert link == Link(size + i);
    }
  }

  /** The tool is published and the table holds the first links, all through it. */
  ghost predicate Filled(n: Names, s: Session, name: string, b: Binding, size: nat) {
    Live(s.tools, name, b) && b.tag < s.nextTag && FilledTable(n, s.resources, b.ns, size)
  }

  ghost predicate FilledTable(n: Names, m: Table, ns: Namespace, size: nat) {
    m.Keys == Uris(n, ns, size) && forall k :: k in m ==> m[k].ns == ns
  }

  /** The results of a tool, from one number of links up to another. */
  function Results(name: string, b: Binding, done: nat, calls: nat): seq<Event>
    decreases calls - done
  {
    if calls <= done then []
    else [CallReturns(name, b, LinksFrom(MAX_CONTENT * done), false)] + Results(name, b, done + 1, calls)
  }

  lemma SizeOfFilled(n: Names, m: Table, ns: Namespace, size: nat)
    requires n.Injective() && FilledTable(n, m, ns, size)
    ensures |m| == size
  {
    UrisDiffer(n, ns, size);
    SizeOfTable(m);
  }

  lemma LinksFit(n: Names, m: Table, b: Binding, tag: int, size: nat)
    requires n.Injective() && FilledTable(n, m, b.ns, size) && size + MAX_CONTENT <= MAX_RESOURCES
    ensures var r := MapLinks(n, m, b, tag, LinksFrom(size)); r.Some? && r.value.Keys == Uris(n, b.ns, size + MAX_CONTENT)
  {
    SizeOfFilled(n, m, b.ns, size);
    UrisDiffer(n, b.ns, size + MAX_CONTENT);
    MoreUris(n, b, size);
    LinksFitExactly(n, m, b, tag, LinksFrom(size));
  }

  lemma LinksFillTable(n: Names, m: Table, b: Binding, tag: int, size: nat)
    requires n.Injective() && FilledTable(n, m, b.ns, size) && size + MAX_CONTENT <= MAX_RESOURCES
    ensures var r := MapLinks(n, m, b, tag, LinksFrom(size)); r.Some? && FilledTable(n, r.value, b.ns, size + MAX_CONTENT)
  {
    LinksFit(n, m, b, tag, size);
    SizeOfFilled(n, m, b.ns, size);
    MappedLinks(n, m, b, tag, LinksFrom(size));
  }

  lemma OneMoreResult(n: Names, s: Session, name: string, b: Binding, size: nat)
    requires n.Injective() && Filled(n, s, name, b, size) && size + MAX_CONTENT <= MAX_RESOURCES
    ensures Filled(n, CallFinished(n, s, name, b, LinksFrom(size), false).0, name, b, size + MAX_CONTENT)
  {
    LinksFillTable(n, s.resources, b, s.nextTag, size);
  }

  lemma EventFirst(n: Names, s: Session, event: Event, rest: seq<Event>, s': Session)
    requires Enabled(s, event) && Runs(n, Step(n, s, event), rest, s')
    ensures Runs(n, s, [event] + rest, s')
  {
    assert ([event] + rest)[1..] == rest;
  }

  lemma {:induction false} ResultsFill(n: Names, s: Session, name: string, b: Binding, done: nat, calls: nat) returns (s': Session)
    requires n.Injective() && Filled(n, s, name, b, MAX_CONTENT * done)
    requires done <= calls && MAX_CONTENT * calls <= MAX_RESOURCES
    ensures Runs(n, s, Results(name, b, done, calls), s') && Filled(n, s', name, b, MAX_CONTENT * calls)
    decreases calls - done
  {
    if done == calls {
      s' := s;
    } else {
      var event := CallReturns(name, b, LinksFrom(MAX_CONTENT * done), false);
      OneMoreResult(n, s, name, b, MAX_CONTENT * done);
      s' := ResultsFill(n, Step(n, s, event), name, b, done + 1, calls);
      EventFirst(n, s, event, Results(name, b, done + 1, calls), s');
    }
  }

  /** One tool of a native resource is published under a new identity, and answers with a hundred new links each time. */
  function FillingRun(n: Names, id: Identity, key: string, revision: string, tool: string, calls: nat): seq<Event> {
    var ns := Namespace(id, Resource(key), revision);
    [Adopts(id), Publishes(Entry(Resource(key), revision, [tool], [], []), false)]
    + Results(n.tool(ns, tool), Binding(0, 0, ns, tool, false), 0, calls)
  }

  lemma FirstTool(n: Names, id: Identity, key: string, revision: string, tool: string)
    ensures var ns := Namespace(id, Resource(key), revision);
            var t := Published(n, INITIAL.(identity := Some(id)), id, Entry(Resource(key), revision, [tool], [], []), false).0;
            Filled(n, t, n.tool(ns, tool), Binding(0, 0, ns, tool, false), 0)
  {
    var ns := Namespace(id, Resource(key), revision);
    var b := Binding(0, 0, ns, tool, false);
    var empty: Table := map[];
    assert Outside(empty, {Resource(key)}) == empty;
    assert [tool][1..] == [];
    assert AddTools(n, empty, ns, 0, [tool]) == Some(empty[n.tool(ns, tool) := b]);
    assert SourcesOf(empty[n.tool(ns, tool) := b]) + SourcesOf(empty) == {Resource(key)};
    assert Uris(n, ns, 0) == {};
  }

  lemma FillingRuns(n: Names, id: Identity, key: string, revision: string, tool: string, calls: nat) returns (s: Session)
    requires n.Injective() && MAX_CONTENT * calls <= MAX_RESOURCES
    ensures Runs(n, INITIAL, FillingRun(n, id, key, revision, tool, calls), s)
    ensures FilledTable(n, s.resources, Namespace(id, Resource(key), revision), MAX_CONTENT * calls)
  {
    var ns := Namespace(id, Resource(key), revision);
    var name, b, e := n.tool(ns, tool), Binding(0, 0, ns, tool, false), Entry(Resource(key), revision, [tool], [], []);
    var adopted := INITIAL.(identity := Some(id));
    var published := Published(n, adopted, id, e, false).0;
    FirstTool(n, id, key, revision, tool);
    s := ResultsFill(n, published, name, b, 0, calls);
    var publish, results := Publishes(e, false), Results(name, b, 0, calls);
    EventFirst(n, adopted, publish, results, s);
    EventFirst(n, INITIAL, Adopts(id), [publish] + results, s);
    assert FillingRun(n, id, key, revision, tool, calls) == [Adopts(id)] + ([publish] + results);
  }

  lemma FilledByOther(n: Names, m: Table, ns: Namespace, size: nat, source: Source)
    requires FilledTable(n, m, ns, size) && source != ns.source
    ensures Outside(m, {source}) == m
  {}

  /**
   After each of twenty such answers the session holds a hundred resources more: past 200 at the
   third, at the bound of 2000 with the last. From the third on no other source can be published.
   */
  lemma LinksFillTheTable(n: Names, id: Identity, key: string, revision: string, tool: string, calls: nat) returns (s: Session)
    requires n.Injective() && MAX_CONTENT * calls <= MAX_RESOURCES
    ensures Runs(n, INITIAL, FillingRun(n, id, key, revision, tool, calls), s)
    ensures |s.resources| == MAX_CONTENT * calls
    ensures forall source :: source != Resource(key) && calls > 2 ==> CrowdedOut(s, source)
  {
    var ns := Namespace(id, Resource(key), revision);
    s := FillingRuns(n, id, key, revision, tool, calls);
    SizeOfFilled(n, s.resources, ns, MAX_CONTENT * calls);
    forall source | source != Resource(key) && calls > 2 ensures CrowdedOut(s, source) {
      FilledByOther(n, s.resources, ns, MAX_CONTENT * calls, source);
    }
  }
}
