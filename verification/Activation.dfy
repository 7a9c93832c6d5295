/**
 The native-discovery session of apps/goose-extension/src/activation.ts: the flat tool and
 resource maps, account bindings, pending selections and UI views of one extension
 instance, with late results that must not bring back dead routes. JavaScript object
 identity is a tag: every operation that creates objects draws a new one. Hash-based
 names are a parameter; local URIs are taken to be injective, tool names are not.
 */
module Activation {
  import opened Commons

  const MAX_SOURCES := 8
  const MAX_TOOLS := 200
  const MAX_PUBLISHED_RESOURCES := 200
  const MAX_RESOURCES := 2000
  const MAX_BINDINGS := 32
  const MAX_VIEWS := 128

  datatype Source = Resource(key: string) | Connector(key: string)

  datatype Identity = Identity(issuer: string, subject: string)

  /** What a namespace hash is computed from; the route is a revision or a connection. */
  datatype Namespace = Namespace(identity: Identity, source: Source, route: string)

  /** A routing object: tag is its identity, publication the identity of the route record it shares. */
  datatype Binding = Binding(tag: int, publication: int, ns: Namespace, upstream: string, app: bool)

  type Table = map<string, Binding>

  datatype Names = Names(tool: (Namespace, string) -> string, uri: (Namespace, string) -> string) {
    ghost predicate Injective() {
      forall n, u, n', u' {:trigger uri(n, u), uri(n', u')} :: uri(n, u) == uri(n', u') ==> n == n' && u == u'
    }
  }

  datatype Account = Account(connector: string, connection: string)

  datatype Definition = Definition(uri: string, app: bool)

  /** A resolved entry of a discovery response. */
  datatype Entry = Entry(source: Source, route: string, tools: seq<string>, resources: seq<Definition>, selectors: seq<string>)

  datatype View = View(token: int, uri: string, binding: Binding)

  datatype Session = Session(identity: Option<Identity>, tools: Table, resources: Table, accounts: map<string, Account>,
                             pending: map<string, set<string>>, views: seq<View>, nextTag: int)

  const INITIAL := Session(None, map[], map[], map[], map[], [], 0)

  // ---------------------------------------------------------------------------
  // The operations as functions on sessions
  // ---------------------------------------------------------------------------

  /** The bindings of every source but these. */
  function Outside(m: Table, sources: set<Source>): Table {
    map k | k in m && m[k].ns.source !in sources :: m[k]
  }

  function AddTools(n: Names, m: Table, ns: Namespace, tag: int, names: seq<string>): Option<Table>
    decreases |names|
  {
    if names == [] then Some(m)
    else
      var local := n.tool(ns, names[0]);
      if local in m then None
      else AddTools(n, m[local := Binding(tag, tag, ns, names[0], false)], ns, tag, names[1..])
  }

  function AddResources(n: Names, m: Table, ns: Namespace, tag: int, definitions: seq<Definition>): Table
    decreases |definitions|
  {
    if definitions == [] then m
    else
      var d := definitions[0];
      AddResources(n, m[n.uri(ns, d.uri) := Binding(tag, tag, ns, d.uri, d.app)], ns, tag, definitions[1..])
  }

  function SourcesOf(m: Table): set<Source> {
    set k | k in m :: m[k].ns.source
  }

  function Bind(accounts: map<string, Account>, selectors: seq<string>, account: Account): map<string, Account> {
    accounts + map s | s in selectors :: account
  }

  /** The accounts with those of a connector entry bound. */
  function Rebound(accounts: map<string, Account>, e: Entry): map<string, Account> {
    if e.source.Connector? then Bind(accounts, e.selectors, Account(e.source.key, e.route)) else accounts
  }

  predicate Rebinds(accounts: map<string, Account>, e: Entry) {
    e.source.Connector? &&
    exists selector :: selector in accounts
      && accounts[selector].connector == e.source.key && accounts[selector].connection != e.route
  }

  datatype Draft = Draft(tools: Table, resources: Table, accounts: map<string, Account>) {
    function Sources(): set<Source> {
      SourcesOf(tools) + SourcesOf(resources)
    }

    predicate Fits() {
      && |Sources()| <= MAX_SOURCES && |tools| <= MAX_TOOLS
      && |resources| <= MAX_PUBLISHED_RESOURCES && |accounts| <= MAX_BINDINGS
    }
  }

  /** The tables with the source's routes replaced; None if the account would change or two tool names collide. */
  function Drafted(n: Names, s: Session, id: Identity, e: Entry): Option<Draft> {
    var ns := Namespace(id, e.source, e.route);
    if Rebinds(s.accounts, e) then None
    else
      match AddTools(n, Outside(s.tools, {e.source}), ns, s.nextTag, e.tools)
      case None => None
      case Some(tools) =>
        Some(Draft(tools, AddResources(n, Outside(s.resources, {e.source}), ns, s.nextTag, e.resources),
                   Rebound(s.accounts, e)))
  }

  /** The draft of an entry takes effect; its selectors are no longer pending. */
  function Applied(s: Session, draft: Draft, e: Entry): Session {
    s.(tools := draft.tools, resources := draft.resources, accounts := draft.accounts,
       pending := if e.source.Connector? then s.pending - (set x | x in e.selectors) else s.pending)
  }

  /**
   Publishes one resolved entry, or leaves the session as it is. `oversized` stands for
   the byte limits on definitions and saved bindings and for malformed UI metadata.
   */
  function Published(n: Names, s: Session, id: Identity, e: Entry, oversized: bool): (Session, bool) {
    var draft := Drafted(n, s, id, e);
    var t := s.(nextTag := s.nextTag + 1);
    if draft == None || !draft.value.Fits() || oversized then (t, false)
    else (Applied(t, draft.value, e), true)
  }

  function Cleared(s: Session): Session {
    s.(identity := None, tools := map[], resources := map[], accounts := map[], pending := map[])
  }

  /** A response under another identity drops everything published under the old one. */
  function Adopted(s: Session, id: Identity): Session {
    (if s.identity.Some? && s.identity.value != id then Cleared(s) else s).(identity := Some(id))
  }

  function SourceId(source: Source): string {
    match source
    case Resource(key) => "resource:" + key
    case Connector(key) => "connector:" + key
  }

  /** A pending selection goes with its own source or with any connector that it offers. */
  predicate Touches(sources: set<Source>, id: string, offered: set<string>) {
    exists source :: source in sources && (SourceId(source) == id || (source.Connector? && source.key in offered))
  }

  /** The pending selection is that of a removed source, or one of its choices is a removed connector. */
  ghost predicate Concerns(sources: set<Source>, id: string, offered: set<string>) {
    || (exists key :: Resource(key) in sources && id == "resource:" + key)
    || (exists key :: Connector(key) in sources && (id == "connector:" + key || key in offered))
  }

  lemma TouchesWhatItConcerns(sources: set<Source>, id: string, offered: set<string>)
    ensures Touches(sources, id, offered) <==> Concerns(sources, id, offered)
  {
    if source :| source in sources && (SourceId(source) == id || (source.Connector? && source.key in offered)) {
      assert source == if source.Resource? then Resource(source.key) else Connector(source.key);
    } else {
      forall key | Resource(key) in sources ensures id != "resource:" + key { assert SourceId(Resource(key)) != id; }
      forall key | Connector(key) in sources ensures id != "connector:" + key && key !in offered { assert SourceId(Connector(key)) != id; }
    }
  }

  /** Removal unpublishes; the accounts stay, so that it cannot be used to choose another one. */
  function Removed(s: Session, sources: set<Source>): Session {
    s.(tools := Outside(s.tools, sources), resources := Outside(s.resources, sources),
       pending := map k | k in s.pending && !Touches(sources, k, s.pending[k]) :: s.pending[k])
  }

  /** Gives every linked upstream URI a local route through the given binding; None on overflow. */
  function MapLinks(n: Names, m: Table, b: Binding, tag: int, links: seq<string>): Option<Table>
    decreases |links|
  {
    if links == [] then Some(m)
    else
      var local := n.uri(b.ns, links[0]);
      if local in m then MapLinks(n, m, b, tag, links[1..])
      else if MAX_RESOURCES <= |m| then None
      else MapLinks(n, m[local := Binding(tag, b.publication, b.ns, links[0], false)], b, tag, links[1..])
  }

  predicate Live(m: Table, key: string, b: Binding) {
    key in m && m[key] == b
  }

  /** The table with the links of a result; None if they overflow it or the result is too long with local URIs in it. */
  function Linked(n: Names, m: Table, b: Binding, tag: int, links: seq<string>, oversized: bool): Option<Table> {
    if oversized then None else MapLinks(n, m, b, tag, links)
  }

  /**
   The result of a call whose binding was captured when it was sent. `oversized` stands for
   the byte limit on the result after its URIs became local ones.
   */
  function CallFinished(n: Names, s: Session, name: string, b: Binding, links: seq<string>, oversized: bool): (Session, bool) {
    if !Live(s.tools, name, b) then (s, false)
    else
      match Linked(n, s.resources, b, s.nextTag, links, oversized)
      case None => (s, false)
      case Some(m) => (s.(resources := m, nextTag := s.nextTag + 1), true)
  }

  function LiveViews(m: Table, views: seq<View>): seq<View> {
    if views == [] then []
    else (if Live(m, views[0].uri, views[0].binding) then [views[0]] else []) + LiveViews(m, views[1..])
  }

  /** A view is kept for an app resource: stale views go first, then the oldest beyond the bound. */
  function ViewAdded(s: Session, uri: string, b: Binding, bindView: bool): Session {
    if bindView && b.ns.source.Resource? && b.app then
      var live := LiveViews(s.resources, s.views);
      s.(views := (if MAX_VIEWS <= |live| then live[1..] else live) + [View(s.nextTag, uri, b)], nextTag := s.nextTag + 1)
    else s
  }

  /** The result of a read: a view that it added stays even if the result is then refused. */
  function ReadFinished(n: Names, s: Session, uri: string, b: Binding, links: seq<string>, bindView: bool, oversized: bool): (Session, bool) {
    if !Live(s.resources, uri, b) then (s, false)
    else
      var t := ViewAdded(s, uri, b, bindView);
      match Linked(n, t.resources, b, t.nextTag, links, oversized)
      case None => (t, false)
      case Some(m) => (t.(resources := m, nextTag := t.nextTag + 1), true)
  }

  /** The view of a token, if the binding it was given for is still the published one. */
  function UiView(s: Session, token: int): Option<View> {
    FindView(s.views, s.resources, token)
  }

  function FindView(views: seq<View>, resources: Table, token: int): (v: Option<View>)
    ensures v.Some? ==> v.value in views && v.value.token == token && Live(resources, v.value.uri, v.value.binding)
  {
    if views == [] then None
    else if views[0].token == token then
      if Live(resources, views[0].uri, views[0].binding) && views[0].binding.ns.source.Resource? then Some(views[0]) else None
    else FindView(views[1..], resources, token)
  }

  // ---------------------------------------------------------------------------
  // The class of the source
  // ---------------------------------------------------------------------------

  class McpActivation {
    const names: Names
    var identity: Option<Identity>
    var tools: Table
    var resources: Table
    var sessionBindings: map<string, Account>
    var pendingDiscovery: map<string, set<string>>
    var uiViews: seq<View>
    /** The next object identity. */
    var nextTag: int

    function Model(): Session
      reads this
    {
      Session(identity, tools, resources, sessionBindings, pendingDiscovery, uiViews, nextTag)
    }

    constructor (names: Names)
      ensures Model() == INITIAL && this.names == names
    {
      this.names := names;
      identity, tools, resources, sessionBindings, pendingDiscovery, uiViews, nextTag := None, map[], map[], map[], map[], [], 0;
    }

    method Reset()
      modifies this
      ensures Model() == Cleared(old(Model()))
      ensures identity == None && tools == map[] && resources == map[] && sessionBindings == map[] && pendingDiscovery == map[]
      ensures uiViews == old(uiViews) && nextTag == old(nextTag)
    {
      tools, resources, sessionBindings, pendingDiscovery := map[], map[], map[], map[];
      identity := None;
    }

    /** Applies a response: adopts its identity, then publishes its resolved entries one by one. */
    method ApplyDiscovery(id: Identity, entries: seq<Entry>, oversized: seq<bool>)
      requires |oversized| == |entries|
      modifies this
      ensures Model() == PublishedAll(names, Adopted(old(Model()), id), id, entries, oversized)
    {
      if identity.Some? && identity.value != id {
        tools, resources, sessionBindings, pendingDiscovery := map[], map[], map[], map[];
      }
      identity := Some(id);
      var i := 0;
      while i < |entries|
        invariant 0 <= i <= |entries|
        invariant PublishedAll(names, Model(), id, entries[i..], oversized[i..])
                  == PublishedAll(names, Adopted(old(Model()), id), id, entries, oversized)
      {
        var _ := Publish(id, entries[i], oversized[i]);
        assert entries[i..][1..] == entries[i + 1..] && oversized[i..][1..] == oversized[i + 1..];
        i := i + 1;
      }
    }

    method ToolTable(base: Table, ns: Namespace, tag: int, upstream: seq<string>) returns (table: Option<Table>)
      ensures table == AddTools(names, base, ns, tag, upstream)
    {
      var m := base;
      var i := 0;
      while i < |upstream|
        invariant 0 <= i <= |upstream|
        invariant AddTools(names, m, ns, tag, upstream[i..]) == AddTools(names, base, ns, tag, upstream)
      {
        var local := names.tool(ns, upstream[i]);
        if local in m { return None; }
        m := m[local := Binding(tag, tag, ns, upstream[i], false)];
        assert upstream[i..][1..] == upstream[i + 1..];
        i := i + 1;
      }
      table := Some(m);
    }

    method ResourceTable(base: Table, ns: Namespace, tag: int, definitions: seq<Definition>) returns (table: Table)
      ensures table == AddResources(names, base, ns, tag, definitions)
    {
      table := base;
      var i := 0;
      while i < |definitions|
        invariant 0 <= i <= |definitions|
        invariant AddResources(names, table, ns, tag, definitions[i..]) == AddResources(names, base, ns, tag, definitions)
      {
        var d := definitions[i];
        table := table[names.uri(ns, d.uri) := Binding(tag, tag, ns, d.uri, d.app)];
        assert definitions[i..][1..] == definitions[i + 1..];
        i := i + 1;
      }
    }

    method DraftEntry(id: Identity, e: Entry, tag: int) returns (draft: Option<Draft>)
      requires tag == nextTag
      ensures draft == Drafted(names, Model(), id, e)
    {
      var ns := Namespace(id, e.source, e.route);
      if Rebinds(sessionBindings, e) { return None; }
      var newTools := ToolTable(Outside(tools, {e.source}), ns, tag, e.tools);
      if newTools == None { return None; }
      var newResources := ResourceTable(Outside(resources, {e.source}), ns, tag, e.resources);
      var bindings := sessionBindings;
      if e.source.Connector? {
        bindings := Bind(bindings, e.selectors, Account(e.source.key, e.route));
      }
      draft := Some(Draft(newTools.value, newResources, bindings));
    }

    method Publish(id: Identity, e: Entry, oversized: bool) returns (active: bool)
      modifies this
      ensures (Model(), active) == Published(names, old(Model()), id, e, oversized)
    {
      var draft := DraftEntry(id, e, nextTag);
      nextTag := nextTag + 1;
      active := draft.Some? && draft.value.Fits() && !oversized;
      if active { Apply(draft.value, e); }
    }

    method Apply(draft: Draft, e: Entry)
      modifies this
      ensures Model() == Applied(old(Model()), draft, e)
    {
      tools, resources, sessionBindings := draft.tools, draft.resources, draft.accounts;
      if e.source.Connector? {
        pendingDiscovery := pendingDiscovery - (set x | x in e.selectors);
      }
    }

    /** An account has to be chosen first. */
    method Offer(id: string, connectors: set<string>)
      modifies this`pendingDiscovery
      ensures Model() == old(Model()).(pending := old(pendingDiscovery)[id := connectors])
    {
      pendingDiscovery := pendingDiscovery[id := connectors];
    }

    method Remove(sources: set<Source>)
      modifies this
      ensures Model() == Removed(old(Model()), sources)
      ensures forall k, b :: Live(tools, k, b) <==> Live(old(tools), k, b) && b.ns.source !in sources
      ensures forall k, b :: Live(resources, k, b) <==> Live(old(resources), k, b) && b.ns.source !in sources
      ensures forall id :: id in pendingDiscovery <==> id in old(pendingDiscovery) && !Concerns(sources, id, old(pendingDiscovery)[id])
      ensures forall id :: id in pendingDiscovery ==> pendingDiscovery[id] == old(pendingDiscovery)[id]
      ensures identity == old(identity) && sessionBindings == old(sessionBindings) && uiViews == old(uiViews) && nextTag == old(nextTag)
    {
      tools := Outside(tools, sources);
      resources := Outside(resources, sources);
      pendingDiscovery := map k | k in pendingDiscovery && !Touches(sources, k, pendingDiscovery[k]) :: pendingDiscovery[k];
      forall id | id in old(pendingDiscovery) { TouchesWhatItConcerns(sources, id, old(pendingDiscovery)[id]); }
    }

    method MapUris(b: Binding, tag: int, links: seq<string>) returns (m: Option<Table>)
      ensures m == MapLinks(names, resources, b, tag, links)
    {
      var table := resources;
      var i := 0;
      while i < |links|
        invariant 0 <= i <= |links|
        invariant MapLinks(names, table, b, tag, links[i..]) == MapLinks(names, resources, b, tag, links)
      {
        var local := names.uri(b.ns, links[i]);
        assert links[i..][1..] == links[i + 1..];
        if local !in table {
          if MAX_RESOURCES <= |table| { return None; }
          table := table[local := Binding(tag, b.publication, b.ns, links[i], false)];
        }
        i := i + 1;
      }
      m := Some(table);
    }

    /** The exclusive second half of a call: b is the binding that was published when it was sent. */
    method FinishCall(name: string, b: Binding, links: seq<string>, oversized: bool) returns (ok: bool)
      modifies this
      ensures (Model(), ok) == CallFinished(names, old(Model()), name, b, links, oversized)
    {
      if name !in tools || tools[name] != b { return false; }
      var m := MapUris(b, nextTag, links);
      if m == None || oversized { return false; }
      resources := m.value;
      nextTag := nextTag + 1;
      ok := true;
    }

    method FinishRead(uri: string, b: Binding, links: seq<string>, bindView: bool, oversized: bool) returns (ok: bool)
      modifies this
      ensures (Model(), ok) == ReadFinished(names, old(Model()), uri, b, links, bindView, oversized)
    {
      if uri !in resources || resources[uri] != b { return false; }
      if bindView && b.ns.source.Resource? && b.app {
        var live := LiveViews(resources, uiViews);
        if MAX_VIEWS <= |live| { live := live[1..]; }
        uiViews := live + [View(nextTag, uri, b)];
        nextTag := nextTag + 1;
      }
      var m := MapUris(b, nextTag, links);
      if m == None || oversized { return false; }
      resources := m.value;
      nextTag := nextTag + 1;
      ok := true;
    }
  }

  function PublishedAll(n: Names, s: Session, id: Identity, entries: seq<Entry>, oversized: seq<bool>): Session
    requires |oversized| == |entries|
    decreases |entries|
  {
    if entries == [] then s
    else PublishedAll(n, Published(n, s, id, entries[0], oversized[0]).0, id, entries[1..], oversized[1..])
  }

  // ---------------------------------------------------------------------------
  // One publication replaces the routes of one source
  // ---------------------------------------------------------------------------

  ghost predicate Own(m: Table, k: string, source: Source) {
    k in m && m[k].ns.source == source
  }

  lemma {:induction false} AddedTools(n: Names, m: Table, ns: Namespace, tag: int, names: seq<string>)
    ensures var r := AddTools(n, m, ns, tag, names);
            r.Some? ==>
              && (forall k :: k in m ==> k in r.value && r.value[k] == m[k])
              && (forall i :: 0 <= i < |names| ==>
                    var k := n.tool(ns, names[i]);
                    k !in m && k in r.value && r.value[k] == Binding(tag, tag, ns, names[i], false))
              && (forall k :: k in r.value && k !in m ==> exists i :: 0 <= i < |names| && k == n.tool(ns, names[i]))
    decreases |names|
  {
    if names != [] {
      var local := n.tool(ns, names[0]);
      if local !in m {
        AddedTools(n, m[local := Binding(tag, tag, ns, names[0], false)], ns, tag, names[1..]);
        assert forall i :: 1 <= i < |names| ==> names[i] == names[1..][i - 1];
      }
    }
  }

  lemma {:induction false} AddedResources(n: Names, m: Table, ns: Namespace, tag: int, definitions: seq<Definition>)
    ensures var r := AddResources(n, m, ns, tag, definitions);
            && (forall k :: k in m ==> k in r)
            && (forall k :: k in r ==>
                  (k in m && r[k] == m[k])
                  || exists i :: 0 <= i < |definitions| && k == n.uri(ns, definitions[i].uri)
                                 && r[k] == Binding(tag, tag, ns, definitions[i].uri, definitions[i].app))
            && (forall i :: 0 <= i < |definitions| ==>
                  n.uri(ns, definitions[i].uri) in r && r[n.uri(ns, definitions[i].uri)].tag == tag
                  && r[n.uri(ns, definitions[i].uri)].ns == ns)
    decreases |definitions|
  {
    if definitions != [] {
      var d := definitions[0];
      var k0 := n.uri(ns, d.uri);
      var m1 := m[k0 := Binding(tag, tag, ns, d.uri, d.app)];
      var rest := definitions[1..];
      AddedResources(n, m1, ns, tag, rest);
      assert forall i :: 1 <= i < |definitions| ==> definitions[i] == rest[i - 1];
      var r := AddResources(n, m, ns, tag, definitions);
      assert r == AddResources(n, m1, ns, tag, rest);
      forall k | k in r
        ensures (k in m && r[k] == m[k])
                || exists i :: 0 <= i < |definitions| && k == n.uri(ns, definitions[i].uri)
                               && r[k] == Binding(tag, tag, ns, definitions[i].uri, definitions[i].app)
      {
        if !(k in m1 && r[k] == m1[k]) {
          var i :| 0 <= i < |rest| && k == n.uri(ns, rest[i].uri) && r[k] == Binding(tag, tag, ns, rest[i].uri, rest[i].app);
          assert definitions[i + 1] == rest[i];
        } else if k == k0 {
          assert k == n.uri(ns, definitions[0].uri);
        }
      }
      assert k0 in r;
      if !(r[k0] == m1[k0]) {
        assert r[k0].tag == tag && r[k0].ns == ns;
      }
    }
  }

  /** The routes of one source replaced by fresh ones, those of every other source kept. */
  ghost predicate Replaced(m: Table, m': Table, ns: Namespace, tag: int) {
    && (forall k :: k in m && m[k].ns.source != ns.source ==> k in m' && m'[k] == m[k])
    && (forall k :: k in m' ==>
          (k in m && m'[k] == m[k] && m[k].ns.source != ns.source) || (m'[k].ns == ns && m'[k].tag == tag))
  }

  ghost predicate ToolNames(n: Names, m: Table, ns: Namespace, names: seq<string>) {
    && (forall k :: Own(m, k, ns.source) <==> exists i :: 0 <= i < |names| && k == n.tool(ns, names[i]))
    && (forall i :: 0 <= i < |names| ==> n.tool(ns, names[i]) in m && m[n.tool(ns, names[i])].upstream == names[i])
  }

  ghost predicate ResourceUris(n: Names, m: Table, ns: Namespace, definitions: seq<Definition>) {
    && (forall k :: Own(m, k, ns.source) <==> exists i :: 0 <= i < |definitions| && k == n.uri(ns, definitions[i].uri))
    && (forall k :: Own(m, k, ns.source) ==> k == n.uri(ns, m[k].upstream))
  }

  lemma ToolsReplaced(n: Names, m: Table, ns: Namespace, tag: int, names: seq<string>)
    ensures var r := AddTools(n, Outside(m, {ns.source}), ns, tag, names);
            r.Some? ==> Replaced(m, r.value, ns, tag) && ToolNames(n, r.value, ns, names)
  {
    AddedTools(n, Outside(m, {ns.source}), ns, tag, names);
  }

  lemma ResourcesReplaced(n: Names, m: Table, ns: Namespace, tag: int, definitions: seq<Definition>)
    requires n.Injective() && KeyedByUri(n, m)
    ensures var r := AddResources(n, Outside(m, {ns.source}), ns, tag, definitions);
            Replaced(m, r, ns, tag) && ResourceUris(n, r, ns, definitions)
  {
    var other := Outside(m, {ns.source});
    AddedResources(n, other, ns, tag, definitions);
    forall k | k in other ensures forall i :: 0 <= i < |definitions| ==> k != n.uri(ns, definitions[i].uri) {
      assert k == n.uri(m[k].ns, m[k].upstream);
    }
  }

  lemma ReplacedKeepsOutside(m: Table, m': Table, ns: Namespace, tag: int)
    requires Replaced(m, m', ns, tag)
    ensures Outside(m', {ns.source}) == Outside(m, {ns.source})
  {}

  ghost predicate KeyedByUri(n: Names, m: Table) {
    forall k :: k in m ==> k == n.uri(m[k].ns, m[k].upstream)
  }

  /**
   A resolved entry either replaces exactly the routes of its own source by exactly its
   own definitions, on fresh binding objects, or leaves every route as it is.
   */
  lemma PublicationReplacesOneSource(n: Names, s: Session, id: Identity, e: Entry, oversized: bool)
    requires n.Injective() && KeyedByUri(n, s.resources)
    ensures var (t, ok) := Published(n, s, id, e, oversized); var ns := Namespace(id, e.source, e.route);
            if !ok then t == s.(nextTag := s.nextTag + 1)
            else
              && Outside(t.tools, {e.source}) == Outside(s.tools, {e.source})
              && Outside(t.resources, {e.source}) == Outside(s.resources, {e.source})
              && Replaced(s.tools, t.tools, ns, s.nextTag) && ToolNames(n, t.tools, ns, e.tools)
              && Replaced(s.resources, t.resources, ns, s.nextTag) && ResourceUris(n, t.resources, ns, e.resources)
  {
    var ns := Namespace(id, e.source, e.route);
    var (t, ok) := Published(n, s, id, e, oversized);
    if ok {
      ToolsReplaced(n, s.tools, ns, s.nextTag, e.tools);
      ResourcesReplaced(n, s.resources, ns, s.nextTag, e.resources);
      ReplacedKeepsOutside(s.tools, t.tools, ns, s.nextTag);
      ReplacedKeepsOutside(s.resources, t.resources, ns, s.nextTag);
    }
  }

  // ---------------------------------------------------------------------------
  // Every run of a session
  // ---------------------------------------------------------------------------

  datatype Event =
    | Resets
    | Adopts(id: Identity)
    | Publishes(e: Entry, oversized: bool)
    | Offers(key: string, connectors: set<string>)
    | Removes(sources: set<Source>)
    | CallReturns(name: string, b: Binding, links: seq<string>, oversized: bool)
    | ReadReturns(uri: string, b: Binding, links: seq<string>, bindView: bool, oversized: bool)

  /** Entries are published under the identity just adopted; a returning call or read captured an object that existed. */
  ghost predicate Enabled(s: Session, event: Event) {
    match event
    case Publishes(_, _) => s.identity.Some?
    case CallReturns(_, b, _, _) => b.tag < s.nextTag
    case ReadReturns(_, b, _, _, _) => b.tag < s.nextTag
    case _ => true
  }

  ghost function Step(n: Names, s: Session, event: Event): Session
    requires Enabled(s, event)
  {
    match event
    case Resets => Cleared(s)
    case Adopts(id) => Adopted(s, id)
    case Publishes(e, oversized) => Published(n, s, s.identity.value, e, oversized).0
    case Offers(key, connectors) => s.(pending := s.pending[key := connectors])
    case Removes(sources) => Removed(s, sources)
    case CallReturns(name, b, links, oversized) => CallFinished(n, s, name, b, links, oversized).0
    case ReadReturns(uri, b, links, bindView, oversized) => ReadFinished(n, s, uri, b, links, bindView, oversized).0
  }

  ghost predicate Runs(n: Names, s: Session, events: seq<Event>, s': Session)
    decreases |events|
  {
    if events == [] then s == s'
    else Enabled(s, events[0]) && Runs(n, Step(n, s, events[0]), events[1..], s')
  }

  /** Every route carries the identity of the session and an object identity drawn before. */
  ghost predicate Signed(s: Session, m: Table) {
    forall k :: k in m ==> s.identity == Some(m[k].ns.identity) && m[k].tag < s.nextTag
  }

  /** The routes of a connector use the account bound for it. */
  ghost predicate OneAccount(accounts: map<string, Account>, m: Table) {
    forall k, selector :: k in m && selector in accounts && m[k].ns.source == Connector(accounts[selector].connector) ==>
      m[k].ns.route == accounts[selector].connection
  }

  ghost predicate AccountsAgree(accounts: map<string, Account>) {
    forall x, y :: x in accounts && y in accounts && accounts[x].connector == accounts[y].connector ==>
      accounts[x].connection == accounts[y].connection
  }

  ghost predicate Limits(s: Session) {
    && |SourcesOf(s.tools) + SourcesOf(s.resources)| <= MAX_SOURCES
    && |s.tools| <= MAX_TOOLS && |s.resources| <= MAX_RESOURCES && |s.accounts| <= MAX_BINDINGS
    && |s.views| <= MAX_VIEWS
  }

  /** Views are kept in the order in which they were added. */
  ghost predicate Tokens(s: Session) {
    && (forall i :: 0 <= i < |s.views| ==> s.views[i].token < s.nextTag && s.views[i].binding.tag < s.nextTag)
    && (forall i, j :: 0 <= i < j < |s.views| ==> s.views[i].token < s.views[j].token)
  }

  ghost predicate Inv(n: Names, s: Session) {
    && Signed(s, s.tools) && Signed(s, s.resources)
    && KeyedByUri(n, s.resources)
    && AccountsAgree(s.accounts) && OneAccount(s.accounts, s.tools) && OneAccount(s.accounts, s.resources)
    && Limits(s) && Tokens(s)
  }

  lemma OutsideIsSmaller(m: Table, sources: set<Source>)
    ensures |Outside(m, sources)| <= |m| && SourcesOf(Outside(m, sources)) <= SourcesOf(m)
  {
    SubsetIsSmaller(Outside(m, sources).Keys, m.Keys);
  }

  lemma RemovalKeepsInv(n: Names, s: Session, sources: set<Source>)
    requires Inv(n, s)
    ensures Inv(n, Removed(s, sources))
  {
    OutsideIsSmaller(s.tools, sources);
    OutsideIsSmaller(s.resources, sources);
    var t := Removed(s, sources);
    SubsetIsSmaller(SourcesOf(t.tools) + SourcesOf(t.resources), SourcesOf(s.tools) + SourcesOf(s.resources));
  }

  lemma ClearingKeepsInv(n: Names, s: Session, id: Identity)
    requires Inv(n, s)
    ensures Inv(n, Cleared(s)) && Inv(n, Adopted(s, id))
  {
    assert SourcesOf(map[]) == {};
  }

  lemma {:induction false} MappedLinks(n: Names, m: Table, b: Binding, tag: int, links: seq<string>)
    requires |m| <= MAX_RESOURCES
    ensures var r := MapLinks(n, m, b, tag, links);
            r.Some? ==>
              && |r.value| <= MAX_RESOURCES
              && (forall k :: k in m ==> k in r.value && r.value[k] == m[k])
              && (forall k :: k in r.value && k !in m ==>
                    r.value[k].ns == b.ns && r.value[k].tag == tag && r.value[k].publication == b.publication && !r.value[k].app
                    && k == n.uri(b.ns, r.value[k].upstream))
    decreases |links|
  {
    if links != [] {
      var local := n.uri(b.ns, links[0]);
      if local in m {
        MappedLinks(n, m, b, tag, links[1..]);
      } else if |m| < MAX_RESOURCES {
        MappedLinks(n, m[local := Binding(tag, b.publication, b.ns, links[0], false)], b, tag, links[1..]);
      }
    }
  }

  /** New routes through b only, under fresh objects; all old routes kept. */
  ghost predicate Extended(n: Names, m: Table, m': Table, b: Binding, tag: int) {
    && (forall k :: k in m ==> k in m' && m'[k] == m[k])
    && (forall k :: k in m' && k !in m ==> m'[k].ns == b.ns && m'[k].tag == tag && k == n.uri(b.ns, m'[k].upstream))
  }

  lemma ExtendedTable(n: Names, s: Session, live: Table, name: string, m: Table, b: Binding)
    requires Live(live, name, b) && Signed(s, live) && OneAccount(s.accounts, live)
    requires Signed(s, s.resources) && KeyedByUri(n, s.resources) && OneAccount(s.accounts, s.resources)
    requires Extended(n, s.resources, m, b, s.nextTag)
    ensures Signed(s.(nextTag := s.nextTag + 1), m) && KeyedByUri(n, m) && OneAccount(s.accounts, m)
    ensures SourcesOf(m) <= SourcesOf(s.resources) + {b.ns.source}
  {}

  /** Mapping links through a published binding keeps the invariant. */
  lemma LinksKeepInv(n: Names, s: Session, name: string, live: Table, b: Binding, links: seq<string>)
    requires Inv(n, s) && Live(live, name, b) && (live == s.tools || live == s.resources)
    requires MapLinks(n, s.resources, b, s.nextTag, links).Some?
    ensures Inv(n, s.(resources := MapLinks(n, s.resources, b, s.nextTag, links).value, nextTag := s.nextTag + 1))
  {
    MappedLinks(n, s.resources, b, s.nextTag, links);
    var r := MapLinks(n, s.resources, b, s.nextTag, links).value;
    ExtendedTable(n, s, live, name, r, b);
    LinksAddNoSource(s, live, name, r, b);
    var t := s.(resources := r, nextTag := s.nextTag + 1);
    assert Signed(t, t.tools) && Signed(t, t.resources);
    assert Tokens(t);
  }

  lemma LinksAddNoSource(s: Session, live: Table, name: string, r: Table, b: Binding)
    requires Live(live, name, b) && (live == s.tools || live == s.resources)
    requires SourcesOf(r) <= SourcesOf(s.resources) + {b.ns.source}
    ensures |SourcesOf(s.tools) + SourcesOf(r)| <= |SourcesOf(s.tools) + SourcesOf(s.resources)|
  {
    assert b.ns.source in SourcesOf(live);
    SubsetIsSmaller(SourcesOf(s.tools) + SourcesOf(r), SourcesOf(s.tools) + SourcesOf(s.resources));
  }

  lemma {:induction false} FewerViews(m: Table, views: seq<View>)
    ensures |LiveViews(m, views)| <= |views|
    ensures forall v :: v in LiveViews(m, views) ==> v in views
    ensures (forall i, j :: 0 <= i < j < |views| ==> views[i].token < views[j].token) ==>
              forall i, j :: 0 <= i < j < |LiveViews(m, views)| ==> LiveViews(m, views)[i].token < LiveViews(m, views)[j].token
  {
    if views != [] {
      FewerViews(m, views[1..]);
      var rest := LiveViews(m, views[1..]);
      if forall i, j :: 0 <= i < j < |views| ==> views[i].token < views[j].token {
        assert forall i, j :: 0 <= i < j < |views[1..]| ==> views[1..][i].token < views[1..][j].token;
        forall v | v in rest ensures views[0].token < v.token {
          var i :| 0 <= i < |views[1..]| && views[1..][i] == v;
          assert views[i + 1] == v;
        }
      }
    }
  }

  lemma AddedViewTokens(s: Session, uri: string, b: Binding, bindView: bool)
    requires Tokens(s) && |s.views| <= MAX_VIEWS && b.tag < s.nextTag
    ensures var t := ViewAdded(s, uri, b, bindView); Tokens(t) && |t.views| <= MAX_VIEWS
  {
    FewerViews(s.resources, s.views);
    var live := LiveViews(s.resources, s.views);
    forall i | 0 <= i < |live| ensures live[i].token < s.nextTag && live[i].binding.tag < s.nextTag {
      assert live[i] in live;
    }
  }

  lemma ViewKeepsInv(n: Names, s: Session, uri: string, b: Binding, bindView: bool)
    requires Inv(n, s) && Live(s.resources, uri, b)
    ensures Inv(n, ViewAdded(s, uri, b, bindView))
  {
    AddedViewTokens(s, uri, b, bindView);
  }

  lemma ReplacedTable(s: Session, m: Table, m': Table, ns: Namespace, accounts: map<string, Account>)
    requires s.identity == Some(ns.identity) && Signed(s, m) && OneAccount(s.accounts, m)
    requires Replaced(m, m', ns, s.nextTag) && ReboundTo(s.accounts, accounts, ns)
    ensures Signed(s.(nextTag := s.nextTag + 1), m') && OneAccount(accounts, m')
  {}

  /** Only the accounts of the namespace's own connector may differ, and they name its route. */
  ghost predicate ReboundTo(accounts: map<string, Account>, accounts': map<string, Account>, ns: Namespace) {
    forall x :: x in accounts' ==>
      if Connector(accounts'[x].connector) == ns.source then accounts'[x].connection == ns.route
      else x in accounts && accounts[x] == accounts'[x]
  }

  lemma BoundAccounts(s: Session, e: Entry, ns: Namespace)
    requires ns.source == e.source && ns.route == e.route && !Rebinds(s.accounts, e) && AccountsAgree(s.accounts)
    ensures var accounts := Rebound(s.accounts, e);
            ReboundTo(s.accounts, accounts, ns) && AccountsAgree(accounts)
  {}

  lemma PublicationKeepsInv(n: Names, s: Session, e: Entry, oversized: bool)
    requires n.Injective() && Inv(n, s) && s.identity.Some?
    ensures Inv(n, Published(n, s, s.identity.value, e, oversized).0)
  {
    var id := s.identity.value;
    var (t, ok) := Published(n, s, id, e, oversized);
    if ok {
      var ns := Namespace(id, e.source, e.route);
      ToolsReplaced(n, s.tools, ns, s.nextTag, e.tools);
      ResourcesReplaced(n, s.resources, ns, s.nextTag, e.resources);
      BoundAccounts(s, e, ns);
      ReplacedTable(s, s.tools, t.tools, ns, t.accounts);
      ReplacedTable(s, s.resources, t.resources, ns, t.accounts);
      ReplacedKeyed(n, s.resources, t.resources, ns, s.nextTag, e.resources);
    }
  }

  lemma ReplacedKeyed(n: Names, m: Table, m': Table, ns: Namespace, tag: int, definitions: seq<Definition>)
    requires KeyedByUri(n, m) && Replaced(m, m', ns, tag) && ResourceUris(n, m', ns, definitions)
    ensures KeyedByUri(n, m')
  {
    forall k | k in m' ensures k == n.uri(m'[k].ns, m'[k].upstream) {
      assert m'[k].ns.source == ns.source ==> Own(m', k, ns.source);
    }
  }

  lemma StepKeepsInv(n: Names, s: Session, event: Event)
    requires n.Injective() && Inv(n, s) && Enabled(s, event)
    ensures Inv(n, Step(n, s, event))
  {
    match event
    case Resets => ClearingKeepsInv(n, s, Identity("", ""));
    case Adopts(id) => ClearingKeepsInv(n, s, id);
    case Publishes(e, oversized) => PublicationKeepsInv(n, s, e, oversized);
    case Offers(_, _) =>
    case Removes(sources) => RemovalKeepsInv(n, s, sources);
    case CallReturns(name, b, links, oversized) =>
      if CallFinished(n, s, name, b, links, oversized).1 { LinksKeepInv(n, s, name, s.tools, b, links); }
    case ReadReturns(uri, b, links, bindView, oversized) => ReadKeepsInv(n, s, uri, b, links, bindView, oversized);
  }

  lemma ReadKeepsInv(n: Names, s: Session, uri: string, b: Binding, links: seq<string>, bindView: bool, oversized: bool)
    requires Inv(n, s)
    ensures Inv(n, ReadFinished(n, s, uri, b, links, bindView, oversized).0)
  {
    if Live(s.resources, uri, b) {
      var t := ViewAdded(s, uri, b, bindView);
      ViewKeepsInv(n, s, uri, b, bindView);
      if MapLinks(n, t.resources, b, t.nextTag, links).Some? { LinksKeepInv(n, t, uri, t.resources, b, links); }
    }
  }

  /** In every reachable state: routes carry the session's identity, limits hold, and connectors have one account. */
  lemma {:induction false} RunsKeepInv(n: Names, s: Session, events: seq<Event>, s': Session)
    requires n.Injective() && Inv(n, s) && Runs(n, s, events, s')
    ensures Inv(n, s')
    decreases |events|
  {
    if events != [] {
      StepKeepsInv(n, s, events[0]);
      RunsKeepInv(n, Step(n, s, events[0]), events[1..], s');
    }
  }

  /** In every reachable state each route carries the session's issuer and subject, and the source, tool and account limits hold. */
  lemma EveryReachableSession(n: Names, events: seq<Event>, s: Session)
    requires n.Injective() && Runs(n, INITIAL, events, s)
    ensures forall k :: k in s.tools ==> s.identity == Some(s.tools[k].ns.identity)
    ensures forall k :: k in s.resources ==> s.identity == Some(s.resources[k].ns.identity)
    ensures |SourcesOf(s.tools) + SourcesOf(s.resources)| <= MAX_SOURCES && |s.tools| <= MAX_TOOLS
    ensures |s.resources| <= MAX_RESOURCES && |s.accounts| <= MAX_BINDINGS && |s.views| <= MAX_VIEWS
    ensures AccountsAgree(s.accounts) && OneAccount(s.accounts, s.tools) && OneAccount(s.accounts, s.resources)
  {
    assert SourcesOf(map[]) == {};
    assert Inv(n, INITIAL);
    RunsKeepInv(n, INITIAL, events, s);
  }

  // ---------------------------------------------------------------------------
  // Dead routes stay dead
  // ---------------------------------------------------------------------------

  /** Whatever a table newly holds is a new object. */
  ghost predicate OnlyNew(m: Table, m': Table, tag: int) {
    forall k :: k in m' ==> Live(m, k, m'[k]) || tag <= m'[k].tag
  }

  /** What a step may do to the two tables: keep objects or put new ones in. */
  ghost predicate OnlyNewObjects(s: Session, t: Session) {
    && s.nextTag <= t.nextTag && |t.resources| <= MAX_RESOURCES
    && OnlyNew(s.tools, t.tools, s.nextTag) && OnlyNew(s.resources, t.resources, s.nextTag)
  }

  lemma PublicationMakesNewObjects(n: Names, s: Session, id: Identity, e: Entry, oversized: bool)
    requires |s.resources| <= MAX_RESOURCES
    ensures OnlyNewObjects(s, Published(n, s, id, e, oversized).0)
  {
    var ns := Namespace(id, e.source, e.route);
    AddedTools(n, Outside(s.tools, {e.source}), ns, s.nextTag, e.tools);
    AddedResources(n, Outside(s.resources, {e.source}), ns, s.nextTag, e.resources);
  }

  lemma LinksAreNewObjects(n: Names, m: Table, b: Binding, tag: int, links: seq<string>)
    requires |m| <= MAX_RESOURCES
    ensures MapLinks(n, m, b, tag, links).Some? ==>
              OnlyNew(m, MapLinks(n, m, b, tag, links).value, tag) && |MapLinks(n, m, b, tag, links).value| <= MAX_RESOURCES
  {
    MappedLinks(n, m, b, tag, links);
  }

  lemma StepMakesNewObjects(n: Names, s: Session, event: Event)
    requires Enabled(s, event) && |s.resources| <= MAX_RESOURCES
    ensures OnlyNewObjects(s, Step(n, s, event))
  {
    match event
    case Publishes(e, oversized) => PublicationMakesNewObjects(n, s, s.identity.value, e, oversized);
    case Removes(sources) => OutsideIsSmaller(s.resources, sources);
    case CallReturns(_, b, links, _) => LinksAreNewObjects(n, s.resources, b, s.nextTag, links);
    case ReadReturns(uri, b, links, bindView, _) =>
      LinksAreNewObjects(n, s.resources, b, ViewAdded(s, uri, b, bindView).nextTag, links);
    case _ =>
  }

  lemma {:induction false} DeadStaysDead(n: Names, s: Session, events: seq<Event>, s': Session, key: string, b: Binding)
    requires Runs(n, s, events, s') && |s.resources| <= MAX_RESOURCES && b.tag < s.nextTag
    ensures !Live(s.tools, key, b) ==> !Live(s'.tools, key, b)
    ensures !Live(s.resources, key, b) ==> !Live(s'.resources, key, b)
    decreases |events|
  {
    if events != [] {
      StepMakesNewObjects(n, s, events[0]);
      DeadStaysDead(n, Step(n, s, events[0]), events[1..], s', key, b);
    }
  }

  /**
   A call or read whose binding has been reset, removed or republished at some point fails
   whenever its result arrives later, and adds no route.
   */
  lemma LateResultsAreInert(n: Names, s: Session, events: seq<Event>, s': Session, key: string, b: Binding,
                            links: seq<string>, bindView: bool, oversized: bool)
    requires Runs(n, s, events, s') && |s.resources| <= MAX_RESOURCES && b.tag < s.nextTag
    ensures !Live(s.tools, key, b) ==> CallFinished(n, s', key, b, links, oversized) == (s', false)
    ensures !Live(s.resources, key, b) ==> ReadFinished(n, s', key, b, links, bindView, oversized) == (s', false)
  {
    DeadStaysDead(n, s, events, s', key, b);
  }

  /** The local URIs that links get through a binding. */
  function LocalUris(n: Names, b: Binding, links: seq<string>): set<string> {
    set link | link in links :: n.uri(b.ns, link)
  }

  lemma FirstLocalUri(n: Names, b: Binding, links: seq<string>)
    requires links != []
    ensures LocalUris(n, b, links) == {n.uri(b.ns, links[0])} + LocalUris(n, b, links[1..])
  {
    assert links == [links[0]] + links[1..];
  }

  lemma GrowsPast(keys: set<string>, more: set<string>, local: string)
    requires local !in keys
    ensures |keys + ({local} + more)| > |keys|
  {
    SubsetIsSmaller(keys + {local}, keys + ({local} + more));
    assert |keys + {local}| == |keys| + 1;
  }

  lemma OneMoreUri(keys: set<string>, more: set<string>, local: string)
    ensures keys + ({local} + more) == (keys + {local}) + more
    ensures local in keys ==> keys + {local} == keys
  {}

  lemma TableWithUri(m: Table, local: string, b: Binding)
    ensures m[local := b].Keys == m.Keys + {local} && |m[local := b]| == |m.Keys + {local}|
    ensures local !in m ==> |m[local := b]| == |m| + 1
  {
    assert m[local := b].Keys == m.Keys + {local};
    assert |m[local := b]| == |m[local := b].Keys| && |m| == |m.Keys|;
  }

  lemma {:induction false} RoutedUris(n: Names, m: Table, b: Binding, tag: int, links: seq<string>)
    ensures MapLinks(n, m, b, tag, links).Some? ==> MapLinks(n, m, b, tag, links).value.Keys == m.Keys + LocalUris(n, b, links)
    decreases |links|
  {
    if links != [] {
      var local := n.uri(b.ns, links[0]);
      FirstLocalUri(n, b, links);
      OneMoreUri(m.Keys, LocalUris(n, b, links[1..]), local);
      if local in m {
        RoutedUris(n, m, b, tag, links[1..]);
      } else if |m| < MAX_RESOURCES {
        TableWithUri(m, local, Binding(tag, b.publication, b.ns, links[0], false));
        RoutedUris(n, m[local := Binding(tag, b.publication, b.ns, links[0], false)], b, tag, links[1..]);
      }
    }
  }

  lemma {:induction false} RefusedOverflows(n: Names, m: Table, b: Binding, tag: int, links: seq<string>)
    requires |m| <= MAX_RESOURCES && MapLinks(n, m, b, tag, links) == None
    ensures |m.Keys + LocalUris(n, b, links)| > MAX_RESOURCES
    decreases |links|
  {
    var local := n.uri(b.ns, links[0]);
    FirstLocalUri(n, b, links);
    OneMoreUri(m.Keys, LocalUris(n, b, links[1..]), local);
    if local in m {
      RefusedOverflows(n, m, b, tag, links[1..]);
    } else if |m| < MAX_RESOURCES {
      TableWithUri(m, local, Binding(tag, b.publication, b.ns, links[0], false));
      RefusedOverflows(n, m[local := Binding(tag, b.publication, b.ns, links[0], false)], b, tag, links[1..]);
    } else {
      GrowsPast(m.Keys, LocalUris(n, b, links[1..]), local);
      assert |m.Keys| == |m|;
    }
  }

  /** Links are routed exactly when the table has room for the local URIs it does not hold yet. */
  lemma LinksFitExactly(n: Names, m: Table, b: Binding, tag: int, links: seq<string>)
    requires |m| <= MAX_RESOURCES
    ensures MapLinks(n, m, b, tag, links).Some? <==> |m.Keys + LocalUris(n, b, links)| <= MAX_RESOURCES
    ensures MapLinks(n, m, b, tag, links).Some? ==> MapLinks(n, m, b, tag, links).value.Keys == m.Keys + LocalUris(n, b, links)
  {
    if MapLinks(n, m, b, tag, links) == None {
      RefusedOverflows(n, m, b, tag, links);
    } else {
      RoutedUris(n, m, b, tag, links);
      LinksAreNewObjects(n, m, b, tag, links);
      assert |MapLinks(n, m, b, tag, links).value| == |MapLinks(n, m, b, tag, links).value.Keys|;
    }
  }

  /** Conversely a result through a published binding is refused exactly when it is too long or its links overflow the table. */
  lemma TimelyResultsAreAccepted(n: Names, s: Session, name: string, b: Binding, links: seq<string>, oversized: bool)
    requires Live(s.tools, name, b) && |s.resources| <= MAX_RESOURCES
    ensures var (t, ok) := CallFinished(n, s, name, b, links, oversized); var keys := s.resources.Keys + LocalUris(n, b, links);
            && (ok <==> |keys| <= MAX_RESOURCES && !oversized)
            && (if ok then t.resources.Keys == keys else t == s)
  {
    LinksFitExactly(n, s.resources, b, s.nextTag, links);
  }

  /** So is a read; a view that it added stays either way. */
  lemma TimelyReadsAreAccepted(n: Names, s: Session, uri: string, b: Binding, links: seq<string>, bindView: bool, oversized: bool)
    requires Live(s.resources, uri, b) && |s.resources| <= MAX_RESOURCES
    ensures var (t, ok) := ReadFinished(n, s, uri, b, links, bindView, oversized); var keys := s.resources.Keys + LocalUris(n, b, links);
            && (ok <==> |keys| <= MAX_RESOURCES && !oversized)
            && (if ok then t.resources.Keys == keys else t.resources == s.resources)
            && t.views == ViewAdded(s, uri, b, bindView).views
  {
    var t := ViewAdded(s, uri, b, bindView);
    LinksFitExactly(n, t.resources, b, t.nextTag, links);
  }

  /** The view, if its token is still known, is this one, and its binding is dead. */
  ghost predicate DeadView(s: Session, v: View) {
    && v.token < s.nextTag && v.binding.tag < s.nextTag && !Live(s.resources, v.uri, v.binding)
    && (forall w :: w in s.views && w.token == v.token ==> w == v)
  }

  lemma StepKeepsViewDead(n: Names, s: Session, event: Event, v: View)
    requires Enabled(s, event) && |s.resources| <= MAX_RESOURCES && DeadView(s, v)
    ensures DeadView(Step(n, s, event), v)
  {
    StepMakesNewObjects(n, s, event);
    FewerViews(s.resources, s.views);
    var t := Step(n, s, event);
    forall w | w in t.views && w.token == v.token ensures w == v {
      if event.ReadReturns? {
        var live := LiveViews(s.resources, s.views);
        assert w in s.views || w.token == s.nextTag;
      }
    }
  }

  /** The token of a view whose binding was reset, removed or republished never opens anything again. */
  lemma {:induction false} DeadViewsStayShut(n: Names, s: Session, events: seq<Event>, s': Session, v: View)
    requires Inv(n, s) && v in s.views && !Live(s.resources, v.uri, v.binding)
    requires Runs(n, s, events, s')
    ensures UiView(s', v.token) == None
  {
    forall w | w in s.views && w.token == v.token ensures w == v {
      var i :| 0 <= i < |s.views| && s.views[i] == w;
      var j :| 0 <= j < |s.views| && s.views[j] == v;
    }
    DeadViewRun(n, s, events, s', v);
  }

  lemma {:induction false} DeadViewRun(n: Names, s: Session, events: seq<Event>, s': Session, v: View)
    requires |s.resources| <= MAX_RESOURCES && DeadView(s, v) && Runs(n, s, events, s')
    ensures UiView(s', v.token) == None
    decreases |events|
  {
    if events != [] {
      StepMakesNewObjects(n, s, events[0]);
      StepKeepsViewDead(n, s, events[0], v);
      DeadViewRun(n, Step(n, s, events[0]), events[1..], s', v);
    }
  }

  // ---------------------------------------------------------------------------
  // A connector and its account
  // ---------------------------------------------------------------------------

  ghost predicate Bound(s: Session, connector: string) {
    exists x :: x in s.accounts && s.accounts[x].connector == connector
  }

  /** The entry puts every selector of the connector on another connector. */
  ghost predicate TakesOver(s: Session, e: Entry, connector: string) {
    e.source.Connector? && e.source.key != connector
    && forall x :: x in s.accounts && s.accounts[x].connector == connector ==> x in e.selectors
  }

  /** The events that unbind a bound connector: a reset, another identity, or a publication that takes over all its selectors. */
  ghost predicate Unbinds(n: Names, s: Session, event: Event, connector: string)
    requires Enabled(s, event)
  {
    match event
    case Resets => true
    case Adopts(id) => s.identity.Some? && s.identity.value != id
    case Publishes(e, oversized) => TakesOver(s, e, connector) && Published(n, s, s.identity.value, e, oversized).1
    case _ => false
  }

  lemma StepKeepsAccount(n: Names, s: Session, event: Event, x: string, y: string)
    requires AccountsAgree(s.accounts) && Enabled(s, event) && x in s.accounts && y in Step(n, s, event).accounts
    requires s.accounts[x].connector == Step(n, s, event).accounts[y].connector
    ensures s.accounts[x].connection == Step(n, s, event).accounts[y].connection
  {
    if event.Publishes? {
      PublicationKeepsAccount(n, s, event.e, event.oversized, x, y);
    }
  }

  lemma PublicationUnbindsExactly(accounts: map<string, Account>, e: Entry, connector: string)
    requires e.source.Connector? && exists x :: x in accounts && accounts[x].connector == connector
    ensures (forall x :: x in Rebound(accounts, e) ==> Rebound(accounts, e)[x].connector != connector)
       <==> e.source.key != connector && forall x :: x in accounts && accounts[x].connector == connector ==> x in e.selectors
  {
    var after := Rebound(accounts, e);
    if forall x :: x in after ==> after[x].connector != connector {
      forall x | x in accounts && accounts[x].connector == connector ensures x in e.selectors {
        assert x in after;
      }
      var x :| x in accounts && accounts[x].connector == connector;
      assert x in after && after[x].connector == e.source.key;
    }
  }

  /** A bound connector is unbound by exactly those events. */
  lemma UnbindsExactly(n: Names, s: Session, event: Event, connector: string)
    requires Enabled(s, event) && Bound(s, connector)
    ensures !Bound(Step(n, s, event), connector) <==> Unbinds(n, s, event, connector)
  {
    if event.Publishes? {
      var e := event.e;
      var (t, ok) := Published(n, s, s.identity.value, e, event.oversized);
      PublishedAccountsExactly(n, s, s.identity.value, e, event.oversized);
      if e.source.Connector? { PublicationUnbindsExactly(s.accounts, e, connector); }
    }
  }

  lemma PublishedAccountsExactly(n: Names, s: Session, id: Identity, e: Entry, oversized: bool)
    ensures var (t, ok) := Published(n, s, id, e, oversized); t.accounts == if ok then Rebound(s.accounts, e) else s.accounts
  {
    DraftedAccounts(n, s, id, e);
  }

  lemma DraftedAccounts(n: Names, s: Session, id: Identity, e: Entry)
    ensures Drafted(n, s, id, e).Some? ==> !Rebinds(s.accounts, e) && Drafted(n, s, id, e).value.accounts == Rebound(s.accounts, e)
  {}

  lemma PublishedAccounts(n: Names, s: Session, id: Identity, e: Entry, oversized: bool)
    ensures var t := Published(n, s, id, e, oversized).0;
            t.accounts == s.accounts || (!Rebinds(s.accounts, e) && t.accounts == Rebound(s.accounts, e))
  {
    DraftedAccounts(n, s, id, e);
  }

  lemma BindingKeepsAccount(accounts: map<string, Account>, selectors: seq<string>, account: Account, x: string, y: string)
    requires forall z :: z in accounts && accounts[z].connector == account.connector ==> accounts[z].connection == account.connection
    requires AccountsAgree(accounts) && x in accounts && y in Bind(accounts, selectors, account)
    requires accounts[x].connector == Bind(accounts, selectors, account)[y].connector
    ensures accounts[x].connection == Bind(accounts, selectors, account)[y].connection
  {}

  lemma PublicationKeepsAccount(n: Names, s: Session, e: Entry, oversized: bool, x: string, y: string)
    requires AccountsAgree(s.accounts) && s.identity.Some? && x in s.accounts
    requires var t := Published(n, s, s.identity.value, e, oversized).0;
             y in t.accounts && s.accounts[x].connector == t.accounts[y].connector
    ensures s.accounts[x].connection == Published(n, s, s.identity.value, e, oversized).0.accounts[y].connection
  {
    PublishedAccounts(n, s, s.identity.value, e, oversized);
    var t := Published(n, s, s.identity.value, e, oversized).0;
    if t.accounts != s.accounts {
      BindingKeepsAccount(s.accounts, e.selectors, Account(e.source.key, e.route), x, y);
    }
  }

  /** No event of the run unbinds the connector in the state it comes in. */
  ghost predicate NoneUnbinds(n: Names, s: Session, events: seq<Event>, connector: string)
    decreases |events|
  {
    events != [] ==>
      Enabled(s, events[0]) && !Unbinds(n, s, events[0], connector) && NoneUnbinds(n, Step(n, s, events[0]), events[1..], connector)
  }

  /** Until an event unbinds it a connector stays bound, and on one account, removals included. */
  lemma {:induction false} AccountKeptWhileBound(n: Names, s: Session, events: seq<Event>, s': Session, x: string)
    requires n.Injective() && Inv(n, s) && Runs(n, s, events, s') && x in s.accounts
    requires NoneUnbinds(n, s, events, s.accounts[x].connector)
    ensures Bound(s', s.accounts[x].connector)
    ensures forall y :: y in s'.accounts && s'.accounts[y].connector == s.accounts[x].connector ==>
              s'.accounts[y].connection == s.accounts[x].connection
    decreases |events|
  {
    var connector := s.accounts[x].connector;
    assert Bound(s, connector);
    if events != [] {
      var t := Step(n, s, events[0]);
      StepKeepsInv(n, s, events[0]);
      UnbindsExactly(n, s, events[0], connector);
      var z :| z in t.accounts && t.accounts[z].connector == connector;
      StepKeepsAccount(n, s, events[0], x, z);
      AccountKeptWhileBound(n, t, events[1..], s', z);
    }
  }

  /** A bound connector takes exactly its own account; an unbound one takes any. */
  lemma UnboundConnectorTakesAnyAccount(s: Session, e: Entry)
    requires AccountsAgree(s.accounts) && e.source.Connector?
    ensures !Bound(s, e.source.key) ==> !Rebinds(s.accounts, e)
    ensures forall x :: x in s.accounts && s.accounts[x].connector == e.source.key ==> (Rebinds(s.accounts, e) <==> s.accounts[x].connection != e.route)
  {
    assert Rebinds(s.accounts, e) ==> Bound(s, e.source.key);
  }

  /** So a connector whose selectors another connector takes over can come back on any account. */
  lemma TakenOverConnectorCanSwitch(n: Names, s: Session, id: Identity, taker: Entry, connector: string, next: Entry)
    requires AccountsAgree(s.accounts) && TakesOver(s, taker, connector) && Published(n, s, id, taker, false).1
    requires next.source == Connector(connector)
    ensures !Rebinds(Published(n, s, id, taker, false).0.accounts, next)
  {
    PublishedAccountsExactly(n, s, id, taker, false);
  }

  // ---------------------------------------------------------------------------
  // Entries that leave bound selectors on their connector
  // ---------------------------------------------------------------------------

  ghost predicate LeavesSelectors(accounts: map<string, Account>, e: Entry) {
    e.source.Connector? ==> forall x :: x in e.selectors && x in accounts ==> accounts[x].connector == e.source.key
  }

  ghost predicate Extends(accounts: map<string, Account>, accounts': map<string, Account>) {
    forall x :: x in accounts ==> x in accounts' && accounts'[x] == accounts[x]
  }

  /** A publication that takes effect only adds bindings exactly when its entry leaves bound selectors on their connector. */
  lemma PublicationOnlyAddsExactly(n: Names, s: Session, id: Identity, e: Entry, oversized: bool)
    requires Published(n, s, id, e, oversized).1
    ensures Extends(s.accounts, Published(n, s, id, e, oversized).0.accounts) <==> LeavesSelectors(s.accounts, e)
  {
    PublishedAccountsExactly(n, s, id, e, oversized);
    DraftedAccounts(n, s, id, e);
    var after := Rebound(s.accounts, e);
    if e.source.Connector? && Extends(s.accounts, after) {
      forall x | x in e.selectors && x in s.accounts ensures s.accounts[x].connector == e.source.key {
        assert after[x] == Account(e.source.key, e.route);
      }
    }
    if e.source.Connector? && LeavesSelectors(s.accounts, e) {
      forall x | x in s.accounts ensures x in after && after[x] == s.accounts[x] {
        if x in e.selectors {
          assert !Rebinds(s.accounts, e);
          assert s.accounts[x].connector == e.source.key;
        }
      }
    }
  }

  /** No reset, no other identity, and every connector entry leaves bound selectors on their connector. */
  ghost predicate Orderly(s: Session, event: Event) {
    match event
    case Resets => false
    case Adopts(id) => s.identity.Some? ==> s.identity.value == id
    case Publishes(e, _) => LeavesSelectors(s.accounts, e)
    case _ => true
  }

  ghost predicate AllOrderly(n: Names, s: Session, events: seq<Event>)
    decreases |events|
  {
    events != [] ==> Enabled(s, events[0]) && Orderly(s, events[0]) && AllOrderly(n, Step(n, s, events[0]), events[1..])
  }

  /** Then account choices are only ever added to, whatever is removed or returns late. */
  lemma {:induction false} AccountsOnlyGrow(n: Names, s: Session, events: seq<Event>, s': Session)
    requires Runs(n, s, events, s') && AllOrderly(n, s, events)
    ensures Extends(s.accounts, s'.accounts)
    decreases |events|
  {
    if events != [] {
      var t := Step(n, s, events[0]);
      if events[0].Publishes? {
        var (e, oversized) := (events[0].e, events[0].oversized);
        PublishedAccountsExactly(n, s, s.identity.value, e, oversized);
        if Published(n, s, s.identity.value, e, oversized).1 { PublicationOnlyAddsExactly(n, s, s.identity.value, e, oversized); }
      }
      assert Extends(s.accounts, t.accounts);
      AccountsOnlyGrow(n, t, events[1..], s');
    }
  }
}
