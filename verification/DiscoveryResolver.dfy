/**
 Native discovery in apps/cli/src/services/discovery.ts: merging the requested sources, resolving
 them with a few workers over one shared cursor, and admitting the results under capacity limits.
 */
module DiscoveryResolver {
  import opened Commons
  import opened Text
  import opened Sorting

  const MAX_SOURCES := 8
  const CONCURRENCY := 4
  const MAX_TOOLS := 200
  const MAX_RESOURCES := 200

  function Min(x: int, y: int): int {
    if x < y then x else y
  }

  // ---------------------------------------------------------------------------
  // Merging the requested sources
  // ---------------------------------------------------------------------------

  datatype SourceId = ConnectorId(key: string) | ConnectorTypeId(key: string) | ResourceId(key: string)

  datatype Dependency =
    | Tools(connectorKey: string, tools: seq<string>, includeResources: bool)
    | AnyOfType(connectorType: string)
    | Resource(resourceKey: string)

  datatype Request = Request(dependency: Dependency, direct: bool, skill: Option<string>)

  datatype Selection = Selection(dependency: Dependency, direct: bool, viaSkills: seq<string>)

  function Key(d: Dependency): SourceId {
    match d
    case Tools(connectorKey, _, _) => ConnectorId(connectorKey)
    case AnyOfType(connectorType) => ConnectorTypeId(connectorType)
    case Resource(resourceKey) => ResourceId(resourceKey)
  }

  /** Names in the order of code units, each once. */
  function MergedTools(tools: seq<string>, earlier: seq<string>): seq<string> {
    CanonicalSet(tools + earlier, ByCodeUnit())
  }

  function MergedSelection(previous: Selection, r: Request): Selection {
    Selection(
      if r.dependency.Tools? && previous.dependency.Tools?
      then Tools(r.dependency.connectorKey, MergedTools(r.dependency.tools, previous.dependency.tools),
                 r.dependency.includeResources || previous.dependency.includeResources)
      else previous.dependency,
      previous.direct || r.direct,
      if r.skill.Some? && r.skill.value !in previous.viaSkills
      then previous.viaSkills + [r.skill.value]
      else previous.viaSkills)
  }

  function FirstSelection(r: Request): Selection {
    Selection(r.dependency, r.direct, if r.skill.Some? then [r.skill.value] else [])
  }

  function Added(selected: map<SourceId, Selection>, r: Request): map<SourceId, Selection> {
    var id := Key(r.dependency);
    selected[id := if id in selected then MergedSelection(selected[id], r) else FirstSelection(r)]
  }

  class Selections {
    var selected: map<SourceId, Selection>

    constructor ()
      ensures selected == AllAdded([])
    {
      selected := map[];
    }

    method Add(r: Request, ghost earlier: seq<Request>) returns (id: SourceId)
      requires selected == AllAdded(earlier)
      modifies this
      ensures selected == AllAdded(earlier + [r]) && id == Key(r.dependency)
    {
      assert (earlier + [r])[..|earlier|] == earlier;
      id := Key(r.dependency);
      if id in selected {
        selected := selected[id := MergedSelection(selected[id], r)];
      } else {
        selected := selected[id := FirstSelection(r)];
      }
    }
  }

  function AllAdded(requests: seq<Request>): map<SourceId, Selection>
    decreases |requests|
  {
    if requests == [] then map[]
    else Added(AllAdded(requests[..|requests| - 1]), requests[|requests| - 1])
  }

  ghost predicate Asked(requests: seq<Request>, id: SourceId) {
    exists r :: r in requests && Key(r.dependency) == id
  }

  ghost predicate AskedDirectly(requests: seq<Request>, id: SourceId) {
    exists r :: r in requests && Key(r.dependency) == id && r.direct
  }

  ghost predicate AskedBy(requests: seq<Request>, id: SourceId, skill: string) {
    exists r :: r in requests && Key(r.dependency) == id && r.skill == Some(skill)
  }

  ghost predicate AskedForTool(requests: seq<Request>, id: SourceId, tool: string) {
    exists r :: r in requests && Key(r.dependency) == id && r.dependency.Tools? && tool in r.dependency.tools
  }

  ghost predicate AskedForResources(requests: seq<Request>, id: SourceId) {
    exists r :: r in requests && Key(r.dependency) == id && r.dependency.Tools? && r.dependency.includeResources
  }

  /** A selection says what the requests for its source said together, whatever their order. */
  ghost predicate Says(s: Selection, requests: seq<Request>, id: SourceId) {
    Key(s.dependency) == id
    && (s.direct <==> AskedDirectly(requests, id))
    && (forall skill :: skill in s.viaSkills <==> AskedBy(requests, id, skill)) && Unique(s.viaSkills)
    && (s.dependency.Tools? ==> (forall tool :: tool in s.dependency.tools <==> AskedForTool(requests, id, tool))
                                && (s.dependency.includeResources <==> AskedForResources(requests, id)))
  }

  lemma OneMore(requests: seq<Request>, r: Request, id: SourceId)
    ensures Asked(requests + [r], id) <==> Asked(requests, id) || Key(r.dependency) == id
    ensures AskedDirectly(requests + [r], id) <==> AskedDirectly(requests, id) || (Key(r.dependency) == id && r.direct)
    ensures AskedForResources(requests + [r], id)
        <==> AskedForResources(requests, id) || (Key(r.dependency) == id && r.dependency.Tools? && r.dependency.includeResources)
  {
    assert forall q :: q in requests + [r] <==> q in requests || q == r;
  }

  lemma OneMoreName(requests: seq<Request>, r: Request, id: SourceId, name: string)
    ensures AskedBy(requests + [r], id, name) <==> AskedBy(requests, id, name) || (Key(r.dependency) == id && r.skill == Some(name))
    ensures AskedForTool(requests + [r], id, name)
        <==> AskedForTool(requests, id, name) || (Key(r.dependency) == id && r.dependency.Tools? && name in r.dependency.tools)
  {
    assert forall q :: q in requests + [r] <==> q in requests || q == r;
  }

  lemma NothingAsked(requests: seq<Request>, id: SourceId, name: string)
    requires !Asked(requests, id)
    ensures !AskedDirectly(requests, id) && !AskedForResources(requests, id)
    ensures !AskedBy(requests, id, name) && !AskedForTool(requests, id, name)
  {}

  lemma FirstSays(requests: seq<Request>, r: Request)
    requires !Asked(requests, Key(r.dependency))
    ensures Says(FirstSelection(r), requests + [r], Key(r.dependency))
  {
    var id := Key(r.dependency);
    OneMore(requests, r, id);
    forall name { OneMoreName(requests, r, id, name); }
    forall name { NothingAsked(requests, id, name); }
  }

  lemma MergedSays(previous: Selection, requests: seq<Request>, r: Request)
    requires Says(previous, requests, Key(r.dependency))
    ensures Says(MergedSelection(previous, r), requests + [r], Key(r.dependency))
  {
    var id := Key(r.dependency);
    OneMore(requests, r, id);
    forall name { OneMoreName(requests, r, id, name); }
    if r.dependency.Tools? {
      CanonicalSetElements(r.dependency.tools + previous.dependency.tools, ByCodeUnit());
    }
  }

  lemma OthersSay(s: Selection, requests: seq<Request>, r: Request, id: SourceId)
    requires Says(s, requests, id) && id != Key(r.dependency)
    ensures Says(s, requests + [r], id)
  {
    OneMore(requests, r, id);
    forall name { OneMoreName(requests, r, id, name); }
  }

  /** Merging loses nothing and adds nothing: every selection is the union of the requests for its source. */
  lemma {:induction false} SelectionsSayWhatWasAsked(requests: seq<Request>, id: SourceId)
    ensures id in AllAdded(requests) <==> Asked(requests, id)
    ensures id in AllAdded(requests) ==> Says(AllAdded(requests)[id], requests, id)
    decreases |requests|
  {
    if requests != [] {
      var front, r := requests[..|requests| - 1], requests[|requests| - 1];
      assert requests == front + [r];
      SelectionsSayWhatWasAsked(front, id);
      OneMore(front, r, id);
      if id == Key(r.dependency) {
        if id in AllAdded(front) { MergedSays(AllAdded(front)[id], front, r); } else { FirstSays(front, r); }
      } else if id in AllAdded(front) {
        OthersSay(AllAdded(front)[id], front, r, id);
      }
    }
  }

  // ---------------------------------------------------------------------------
  // Workers over a shared cursor
  // ---------------------------------------------------------------------------

  datatype Value = CapacityOf(source: SourceId) | OutcomeOf(source: SourceId, outcome: int)

  datatype Worker = Ready | Busy(index: int) | Stopped

  /** What the workers share, what each is doing, and how often each selection was resolved. */
  datatype Pool = Pool(cursor: int, values: seq<Value>, workers: seq<Worker>, times: seq<int>)

  function Limit(sources: seq<SourceId>): int {
    Min(|sources|, MAX_SOURCES)
  }

  function Started(sources: seq<SourceId>): Pool {
    Pool(0, seq(|sources|, i requires 0 <= i < |sources| => CapacityOf(sources[i])),
         seq(Min(CONCURRENCY, |sources|), _ => Ready), seq(|sources|, _ => 0))
  }

  ghost predicate Take(sources: seq<SourceId>, p: Pool, q: Pool, w: int) {
    0 <= w < |p.workers| && p.workers[w] == Ready &&
    q == p.(cursor := p.cursor + 1,
            workers := p.workers[w := if p.cursor >= Limit(sources) then Stopped else Busy(p.cursor)])
  }

  ghost predicate Finish(sources: seq<SourceId>, p: Pool, q: Pool, w: int, outcome: int) {
    0 <= w < |p.workers| && p.workers[w].Busy? &&
    var i := p.workers[w].index;
    0 <= i < |p.values| && |p.values| == |p.times| == |sources| &&
    q == p.(values := p.values[i := OutcomeOf(sources[i], outcome)], times := p.times[i := p.times[i] + 1],
            workers := p.workers[w := Ready])
  }

  ghost predicate Step(sources: seq<SourceId>, p: Pool, q: Pool) {
    (exists w :: Take(sources, p, q, w)) || (exists w, outcome :: Finish(sources, p, q, w, outcome))
  }

  ghost predicate Run(sources: seq<SourceId>, run: seq<Pool>) {
    run != [] && run[0] == Started(sources) && forall i :: 0 <= i < |run| - 1 ==> Step(sources, run[i], run[i + 1])
  }

  /** The cursor and the table of outcomes as the workers update them. */
  class ResolverPool {
    var cursor: nat
    var values: seq<Value>

    constructor (sources: seq<SourceId>)
      ensures cursor == Started(sources).cursor && values == Started(sources).values
    {
      cursor := 0;
      values := seq(|sources|, i requires 0 <= i < |sources| => CapacityOf(sources[i]));
    }

    method Next(sources: seq<SourceId>, ghost p: Pool, ghost w: int) returns (index: Option<nat>, ghost q: Pool)
      requires cursor == p.cursor && values == p.values && 0 <= w < |p.workers| && p.workers[w] == Ready
      modifies this`cursor
      ensures Take(sources, p, q, w) && cursor == q.cursor && values == q.values
      ensures q.workers[w] == match index case Some(i) => Busy(i) case None => Stopped
    {
      var taken := cursor;
      cursor := cursor + 1;
      index := if taken >= Min(|sources|, MAX_SOURCES) then None else Some(taken);
      q := p.(cursor := p.cursor + 1, workers := p.workers[w := if index.Some? then Busy(taken) else Stopped]);
    }

    method Store(sources: seq<SourceId>, index: nat, outcome: int, ghost p: Pool, ghost w: int) returns (ghost q: Pool)
      requires cursor == p.cursor && values == p.values && |values| == |p.times| == |sources| && index < |values|
      requires 0 <= w < |p.workers| && p.workers[w] == Busy(index)
      modifies this`values
      ensures Finish(sources, p, q, w, outcome) && cursor == q.cursor && values == q.values
    {
      values := values[index := OutcomeOf(sources[index], outcome)];
      q := p.(values := values, times := p.times[index := p.times[index] + 1], workers := p.workers[w := Ready]);
    }
  }

  ghost predicate Sized(sources: seq<SourceId>, p: Pool) {
    |p.values| == |p.times| == |sources| && |p.workers| == Min(CONCURRENCY, |sources|) && 0 <= p.cursor
    && (Stopped in p.workers ==> p.cursor > Limit(sources))
  }

  /** No two workers hold the same selection. */
  ghost predicate Apart(p: Pool) {
    forall a, b :: 0 <= a < b < |p.workers| && p.workers[a].Busy? ==> p.workers[a] != p.workers[b]
  }

  ghost predicate Counted(sources: seq<SourceId>, p: Pool) {
    (forall i :: Busy(i) in p.workers ==> 0 <= i < Min(p.cursor, Limit(sources))) &&
    forall i :: 0 <= i < |p.times| ==>
      p.times[i] == if i < Min(p.cursor, Limit(sources)) && Busy(i) !in p.workers then 1 else 0
  }

  ghost predicate Slotted(sources: seq<SourceId>, p: Pool) {
    |p.values| == |p.times| == |sources| &&
    forall i :: 0 <= i < |sources| ==> p.values[i].source == sources[i] && (p.values[i].OutcomeOf? <==> p.times[i] == 1)
  }

  ghost predicate Inv(sources: seq<SourceId>, p: Pool) {
    Sized(sources, p) && Apart(p) && Counted(sources, p) && Slotted(sources, p)
  }

  lemma TakeKeepsInv(sources: seq<SourceId>, p: Pool, q: Pool, w: int)
    requires Inv(sources, p) && Take(sources, p, q, w)
    ensures Inv(sources, q)
  {
    assert forall x :: x in q.workers && x != q.workers[w] ==> x in p.workers;
    assert forall i :: Busy(i) in p.workers ==> Busy(i) in q.workers by { KeptByUpdate(p.workers, w, q.workers[w]); }
    assert q.workers[w] in q.workers;
  }

  lemma KeptByUpdate(workers: seq<Worker>, w: int, x: Worker)
    requires 0 <= w < |workers|
    ensures forall y :: y in workers && y != workers[w] ==> y in workers[w := x]
  {
    forall y | y in workers && y != workers[w] ensures y in workers[w := x] {
      var k :| 0 <= k < |workers| && workers[k] == y;
      assert workers[w := x][k] == y;
    }
  }

  lemma FinishKeepsInv(sources: seq<SourceId>, p: Pool, q: Pool, w: int, outcome: int)
    requires Inv(sources, p) && Finish(sources, p, q, w, outcome)
    ensures Inv(sources, q)
  {
    var i := p.workers[w].index;
    assert Busy(i) in p.workers;
    assert forall x :: x in q.workers && x != Ready ==> x in p.workers;
    KeptByUpdate(p.workers, w, Ready);
    assert Busy(i) !in q.workers;
  }

  lemma StartKeepsInv(sources: seq<SourceId>)
    ensures Inv(sources, Started(sources))
  {}

  lemma {:induction false} RunsKeepInv(sources: seq<SourceId>, run: seq<Pool>)
    requires Run(sources, run)
    ensures Inv(sources, run[|run| - 1])
    decreases |run|
  {
    if |run| == 1 {
      StartKeepsInv(sources);
    } else {
      var front := run[..|run| - 1];
      RunsKeepInv(sources, front);
      var p, q := run[|run| - 2], run[|run| - 1];
      assert Step(sources, run[|run| - 2], run[|run| - 2 + 1]);
      if w :| Take(sources, p, q, w) {
        TakeKeepsInv(sources, p, q, w);
      } else {
        var w, outcome :| Finish(sources, p, q, w, outcome);
        FinishKeepsInv(sources, p, q, w, outcome);
      }
    }
  }

  ghost predicate AllStopped(p: Pool) {
    forall w :: 0 <= w < |p.workers| ==> p.workers[w] == Stopped
  }

  /** Whatever the interleaving, the first eight selections are resolved once each, into their own slots; the rest keep "capacity". */
  lemma EachSourceIsResolvedOnce(sources: seq<SourceId>, run: seq<Pool>)
    requires Run(sources, run) && AllStopped(run[|run| - 1])
    ensures var end := run[|run| - 1];
            |end.values| == |end.times| == |sources| &&
            forall i :: 0 <= i < |sources| ==>
              && end.times[i] == (if i < MAX_SOURCES then 1 else 0)
              && end.values[i].source == sources[i]
              && (end.values[i].OutcomeOf? <==> i < MAX_SOURCES)
  {
    RunsKeepInv(sources, run);
    var end := run[|run| - 1];
    if sources != [] { assert end.workers[0] in end.workers; }
  }

  function Weight(w: Worker): nat {
    match w case Ready => 1 case Busy(_) => 2 case Stopped => 0
  }

  function Weights(workers: seq<Worker>): nat {
    if workers == [] then 0 else Weight(workers[0]) + Weights(workers[1..])
  }

  /** The steps still to come. */
  function Remaining(sources: seq<SourceId>, p: Pool): int {
    2 * (Limit(sources) - Min(p.cursor, Limit(sources))) + Weights(p.workers)
  }

  lemma {:induction false} WeightsAfter(workers: seq<Worker>, w: int, x: Worker)
    requires 0 <= w < |workers|
    ensures Weights(workers[w := x]) == Weights(workers) - Weight(workers[w]) + Weight(x)
  {
    if w > 0 {
      WeightsAfter(workers[1..], w - 1, x);
      assert workers[w := x][1..] == workers[1..][w - 1 := x];
    } else {
      assert workers[w := x][1..] == workers[1..];
    }
  }

  lemma {:induction false} StartWeights(n: nat)
    ensures Weights(seq(n, _ => Ready)) == n
  {
    if n > 0 {
      StartWeights(n - 1);
      assert seq(n, _ => Ready)[1..] == seq(n - 1, _ => Ready);
    }
  }

  /** Every interleaving takes the same number of steps, and none can stop short of it. */
  lemma {:induction false} EveryRunHasTheSameLength(sources: seq<SourceId>, run: seq<Pool>)
    requires Run(sources, run)
    ensures |run| - 1 + Remaining(sources, run[|run| - 1]) == 2 * Limit(sources) + Min(CONCURRENCY, |sources|)
    decreases |run|
  {
    if |run| == 1 {
      StartWeights(Min(CONCURRENCY, |sources|));
      assert Started(sources).workers == seq(Min(CONCURRENCY, |sources|), _ => Ready);
    } else {
      EveryRunHasTheSameLength(sources, run[..|run| - 1]);
      var p, q := run[|run| - 2], run[|run| - 1];
      assert Step(sources, run[|run| - 2], run[|run| - 2 + 1]);
      if w :| Take(sources, p, q, w) {
        WeightsAfter(p.workers, w, q.workers[w]);
      } else {
        var w, outcome :| Finish(sources, p, q, w, outcome);
        WeightsAfter(p.workers, w, Ready);
      }
    }
  }

  lemma AWorkerCanAlwaysGoOn(sources: seq<SourceId>, p: Pool, w: int)
    requires Inv(sources, p) && 0 <= w < |p.workers| && p.workers[w] != Stopped
    ensures exists q :: Step(sources, p, q)
  {
    if p.workers[w] == Ready {
      var q := p.(cursor := p.cursor + 1,
                  workers := p.workers[w := if p.cursor >= Limit(sources) then Stopped else Busy(p.cursor)]);
      assert Take(sources, p, q, w);
      assert Step(sources, p, q);
    } else {
      var i := p.workers[w].index;
      assert Busy(i) in p.workers;
      var q := p.(values := p.values[i := OutcomeOf(sources[i], 0)], times := p.times[i := p.times[i] + 1],
                  workers := p.workers[w := Ready]);
      assert Finish(sources, p, q, w, 0);
      assert Step(sources, p, q);
    }
  }

  // ---------------------------------------------------------------------------
  // Merging what was resolved for one connector
  // ---------------------------------------------------------------------------

  datatype Status = Catalog | Selectable | Unavailable(code: string)

  const CONFLICT := Unavailable("bound_connection_unavailable")

  /** What a source came to: nothing yet, a native resource, or a connector with its definitions by name. */
  datatype Found =
    | Unresolved(id: string, status: Status)
    | Native(id: string, revision: string)
    | Connected(id: string, connection: string, selectors: seq<string>, whole: bool, direct: bool, viaSkills: seq<string>,
                tools: map<string, int>, resources: map<string, int>)

  function United(previous: Found, e: Found): Found
    requires previous.Connected? && e.Connected?
  {
    previous.(selectors := previous.selectors + e.selectors, whole := previous.whole || e.whole,
              direct := previous.direct || e.direct, viaSkills := Distinct(previous.viaSkills + e.viaSkills),
              tools := previous.tools + e.tools, resources := previous.resources + e.resources)
  }

  function Entered(entries: map<string, Found>, e: Found): map<string, Found> {
    if e.id !in entries || entries[e.id].Unresolved? then entries[e.id := e]
    else if !entries[e.id].Connected? || !e.Connected? then entries
    else if entries[e.id].connection != e.connection then entries[e.id := Unresolved(e.id, CONFLICT)]
    else entries[e.id := United(entries[e.id], e)]
  }

  function AllEntered(values: seq<Found>): map<string, Found>
    decreases |values|
  {
    if values == [] then map[] else Entered(AllEntered(values[..|values| - 1]), values[|values| - 1])
  }

  method MergeEntries(values: seq<Found>) returns (entries: map<string, Found>)
    ensures entries == AllEntered(values)
  {
    entries := map[];
    for index := 0 to |values|
      invariant entries == AllEntered(values[..index])
    {
      assert values[..index + 1][..index] == values[..index];
      var entry := values[index];
      if entry.id in entries && entries[entry.id].Connected? && entry.Connected? {
        var previous := entries[entry.id];
        if previous.connection != entry.connection {
          entries := entries[entry.id := Unresolved(entry.id, CONFLICT)];
          continue;
        }
        entries := entries[entry.id := United(previous, entry)];
      } else if entry.id !in entries || entries[entry.id].Unresolved? {
        entries := entries[entry.id := entry];
      }
    }
    assert values[..|values|] == values;
  }

  ghost predicate Resolved(values: seq<Found>, id: string, e: Found) {
    e in values && e.id == id && e.Connected?
  }

  /** Whatever was resolved under the id names one connection. */
  ghost predicate OneConnection(values: seq<Found>, id: string, connection: string) {
    forall e :: Resolved(values, id, e) ==> e.connection == connection
  }

  /** The entry is the union of what was resolved under its id. */
  ghost predicate IsUnion(entry: Found, values: seq<Found>, id: string, connection: string) {
    entry.Connected? && entry.id == id && entry.connection == connection
    && (forall x :: x in entry.selectors <==> exists e :: Resolved(values, id, e) && x in e.selectors)
    && (forall x :: x in entry.viaSkills <==> exists e :: Resolved(values, id, e) && x in e.viaSkills)
    && (forall x :: x in entry.tools <==> exists e :: Resolved(values, id, e) && x in e.tools)
    && (forall x :: x in entry.resources <==> exists e :: Resolved(values, id, e) && x in e.resources)
    && (entry.whole <==> exists e :: Resolved(values, id, e) && e.whole)
    && (entry.direct <==> exists e :: Resolved(values, id, e) && e.direct)
  }

  lemma ResolvedOneMore(values: seq<Found>, e: Found, id: string)
    ensures forall x :: Resolved(values + [e], id, x) <==> Resolved(values, id, x) || (x == e && e.id == id && e.Connected?)
  {
    assert forall x :: x in values + [e] <==> x in values || x == e;
  }

  lemma UnionOfFirst(values: seq<Found>, e: Found)
    requires e.Connected? && forall x :: !Resolved(values, e.id, x)
    ensures IsUnion(e, values + [e], e.id, e.connection)
  {
    ResolvedOneMore(values, e, e.id);
    assert Resolved(values + [e], e.id, e);
  }

  lemma UnionOfNames(values: seq<Found>, e: Found)
    requires e.Connected?
    ensures forall x :: (exists y :: Resolved(values + [e], e.id, y) && x in y.selectors)
                   <==> (exists y :: Resolved(values, e.id, y) && x in y.selectors) || x in e.selectors
    ensures forall x :: (exists y :: Resolved(values + [e], e.id, y) && x in y.viaSkills)
                   <==> (exists y :: Resolved(values, e.id, y) && x in y.viaSkills) || x in e.viaSkills
  {
    ResolvedOneMore(values, e, e.id);
    assert Resolved(values + [e], e.id, e);
  }

  lemma UnionOfDefinitions(values: seq<Found>, e: Found)
    requires e.Connected?
    ensures forall x :: (exists y :: Resolved(values + [e], e.id, y) && x in y.tools)
                   <==> (exists y :: Resolved(values, e.id, y) && x in y.tools) || x in e.tools
    ensures forall x :: (exists y :: Resolved(values + [e], e.id, y) && x in y.resources)
                   <==> (exists y :: Resolved(values, e.id, y) && x in y.resources) || x in e.resources
  {
    ResolvedOneMore(values, e, e.id);
    assert Resolved(values + [e], e.id, e);
  }

  lemma UnionOfFlags(values: seq<Found>, e: Found)
    requires e.Connected?
    ensures (exists y :: Resolved(values + [e], e.id, y) && y.whole) <==> (exists y :: Resolved(values, e.id, y) && y.whole) || e.whole
    ensures (exists y :: Resolved(values + [e], e.id, y) && y.direct) <==> (exists y :: Resolved(values, e.id, y) && y.direct) || e.direct
  {
    ResolvedOneMore(values, e, e.id);
    assert Resolved(values + [e], e.id, e);
  }

  lemma UnionOfMore(previous: Found, values: seq<Found>, e: Found)
    requires e.Connected? && IsUnion(previous, values, e.id, e.connection)
    ensures IsUnion(United(previous, e), values + [e], e.id, e.connection)
  {
    UnionOfNames(values, e);
    UnionOfDefinitions(values, e);
    UnionOfFlags(values, e);
    DistinctKeepsElements(previous.viaSkills + e.viaSkills);
  }

  lemma SameResolved(values: seq<Found>, more: seq<Found>, entry: Found, id: string, connection: string)
    requires forall x :: Resolved(values, id, x) <==> Resolved(more, id, x)
    requires IsUnion(entry, values, id, connection)
    ensures IsUnion(entry, more, id, connection)
  {}

  ghost predicate Under(values: seq<Found>, id: string, i: int) {
    0 <= i < |values| && values[i].id == id
  }

  /** The first value under the id that is resolved, as a native resource or as a connector. */
  ghost predicate FirstResolved(values: seq<Found>, id: string, i: int) {
    Under(values, id, i) && !values[i].Unresolved? && forall j :: j < i && Under(values, id, j) ==> values[j].Unresolved?
  }

  ghost predicate NothingResolved(values: seq<Found>, id: string) {
    forall i :: Under(values, id, i) ==> values[i].Unresolved?
  }

  ghost predicate LastUnder(values: seq<Found>, id: string, i: int) {
    Under(values, id, i) && forall j :: i < j ==> !Under(values, id, j)
  }

  ghost predicate Holds(entries: map<string, Found>, id: string, e: Found) {
    id in entries && entries[id] == e
  }

  lemma UnderOneMore(values: seq<Found>, e: Found, id: string)
    ensures forall i {:trigger Under(values, id, i)} :: Under(values, id, i) ==> Under(values + [e], id, i) && (values + [e])[i] == values[i]
    ensures forall i {:trigger Under(values + [e], id, i)} :: Under(values + [e], id, i) ==> Under(values, id, i) || (i == |values| && e.id == id)
    ensures e.id == id ==> Under(values + [e], id, |values|) && (values + [e])[|values|] == e
  {}

  lemma FirstOneMore(values: seq<Found>, e: Found, id: string)
    ensures forall i :: FirstResolved(values, id, i) ==> FirstResolved(values + [e], id, i)
    ensures NothingResolved(values, id) && e.id == id && !e.Unresolved? ==> FirstResolved(values + [e], id, |values|)
    ensures forall i :: FirstResolved(values + [e], id, i) ==>
              FirstResolved(values, id, i) || (i == |values| && e.id == id && NothingResolved(values, id))
  {
    UnderOneMore(values, e, id);
    forall i | FirstResolved(values + [e], id, i) && !FirstResolved(values, id, i) ensures i == |values| && e.id == id && NothingResolved(values, id) {
      assert !Under(values, id, i);
    }
  }

  lemma {:induction false} SomeFirst(values: seq<Found>, id: string)
    ensures NothingResolved(values, id) || exists i :: FirstResolved(values, id, i)
    decreases |values|
  {
    if values != [] {
      var front, e := values[..|values| - 1], values[|values| - 1];
      assert values == front + [e];
      SomeFirst(front, id);
      FirstOneMore(front, e, id);
      UnderOneMore(front, e, id);
    }
  }

  /** A resource resolved first under its id stays; while nothing is resolved the last failure stays. */
  ghost predicate Survives(entries: map<string, Found>, values: seq<Found>, id: string) {
    && (forall i :: FirstResolved(values, id, i) && values[i].Native? ==> Holds(entries, id, values[i]))
    && (NothingResolved(values, id) ==>
          && (forall i :: LastUnder(values, id, i) ==> Holds(entries, id, values[i]))
          && (id in entries <==> exists i :: Under(values, id, i))
          && (id in entries ==> entries[id].Unresolved?))
  }

  lemma OtherSurvives(entries: map<string, Found>, values: seq<Found>, e: Found, id: string)
    requires Survives(entries, values, id) && e.id != id
    ensures Survives(Entered(entries, e), values + [e], id)
  {
    UnderOneMore(values, e, id);
    FirstOneMore(values, e, id);
    assert NothingResolved(values + [e], id) ==> NothingResolved(values, id);
    forall i | LastUnder(values + [e], id, i) ensures LastUnder(values, id, i) {}
  }

  lemma NextSurvives(entries: map<string, Found>, values: seq<Found>, e: Found)
    requires Survives(entries, values, e.id) && NothingResolved(values, e.id)
    ensures Survives(Entered(entries, e), values + [e], e.id)
  {
    UnderOneMore(values, e, e.id);
    FirstOneMore(values, e, e.id);
    forall i | LastUnder(values + [e], e.id, i) ensures i == |values| {}
    forall i | FirstResolved(values + [e], e.id, i) ensures i == |values| {}
  }

  lemma ResolvedSurvives(entries: map<string, Found>, values: seq<Found>, e: Found, first: int)
    requires Survives(entries, values, e.id) && FirstResolved(values, e.id, first)
    ensures Survives(Entered(entries, e), values + [e], e.id)
  {
    UnderOneMore(values, e, e.id);
    FirstOneMore(values, e, e.id);
    assert !NothingResolved(values + [e], e.id);
    forall i | FirstResolved(values + [e], e.id, i) ensures i == first {}
  }

  /** Which failure or native resource stays under an id, whatever else came under it. */
  lemma {:induction false} FirstResourceOrLastFailureStays(values: seq<Found>, id: string)
    ensures Survives(AllEntered(values), values, id)
    decreases |values|
  {
    if values != [] {
      var front, e := values[..|values| - 1], values[|values| - 1];
      assert values == front + [e];
      FirstResourceOrLastFailureStays(front, id);
      SomeFirst(front, id);
      if e.id != id { OtherSurvives(AllEntered(front), front, e, id); }
      else if NothingResolved(front, id) { NextSurvives(AllEntered(front), front, e); }
      else {
        var first :| FirstResolved(front, id, first);
        ResolvedSurvives(AllEntered(front), front, e, first);
      }
    }
  }

  lemma UnionEntered(entries: map<string, Found>, values: seq<Found>, e: Found, id: string, connection: string)
    requires id in entries && IsUnion(entries[id], values, id, connection) && OneConnection(values + [e], id, connection)
    ensures id in Entered(entries, e) && IsUnion(Entered(entries, e)[id], values + [e], id, connection)
  {
    ResolvedOneMore(values, e, id);
    if e.id == id && e.Connected? {
      assert Resolved(values + [e], id, e);
      UnionOfMore(entries[id], values, e);
    } else {
      SameResolved(values, values + [e], entries[id], id, connection);
    }
  }

  lemma UnionBegins(values: seq<Found>, e: Found)
    requires e.Connected? && NothingResolved(values, e.id)
    ensures var entries := Entered(AllEntered(values), e); e.id in entries && IsUnion(entries[e.id], values + [e], e.id, e.connection)
  {
    FirstResourceOrLastFailureStays(values, e.id);
    forall x ensures !Resolved(values, e.id, x) {
      if Resolved(values, e.id, x) {
        var i :| 0 <= i < |values| && values[i] == x;
        assert Under(values, e.id, i);
      }
    }
    UnionOfFirst(values, e);
  }

  /**
   While what was resolved for a connector names one connection, its entry is the union of all of it;
   failures beside it are dropped.
   */
  lemma {:induction false} EntryIsTheUnion(values: seq<Found>, id: string, connection: string, first: int)
    requires OneConnection(values, id, connection) && FirstResolved(values, id, first) && values[first].Connected?
    ensures id in AllEntered(values) && IsUnion(AllEntered(values)[id], values, id, connection)
    decreases |values|
  {
    var front, e := values[..|values| - 1], values[|values| - 1];
    assert values == front + [e];
    FirstOneMore(front, e, id);
    ResolvedOneMore(front, e, id);
    if FirstResolved(front, id, first) {
      EntryIsTheUnion(front, id, connection, first);
      UnionEntered(AllEntered(front), front, e, id, connection);
    } else {
      assert Resolved(values, id, e);
      UnionBegins(front, e);
    }
  }

  /** The last value of a connector that defines the tool. */
  ghost predicate LastTool(values: seq<Found>, id: string, x: string, i: int) {
    Under(values, id, i) && values[i].Connected? && x in values[i].tools
    && forall j :: i < j && Under(values, id, j) && values[j].Connected? ==> x !in values[j].tools
  }

  ghost predicate LastResource(values: seq<Found>, id: string, x: string, i: int) {
    Under(values, id, i) && values[i].Connected? && x in values[i].resources
    && forall j :: i < j && Under(values, id, j) && values[j].Connected? ==> x !in values[j].resources
  }

  /** Each definition is the one that the last value defining it gave. */
  ghost predicate Latest(entry: Found, values: seq<Found>, id: string) {
    && entry.Connected?
    && (forall x, i :: LastTool(values, id, x, i) ==> x in entry.tools && entry.tools[x] == values[i].tools[x])
    && (forall x, i :: LastResource(values, id, x, i) ==> x in entry.resources && entry.resources[x] == values[i].resources[x])
  }

  lemma LastOneMore(values: seq<Found>, e: Found, id: string, x: string, i: int)
    ensures LastTool(values + [e], id, x, i) && i < |values| ==>
              LastTool(values, id, x, i) && (values + [e])[i] == values[i] && (e.id == id && e.Connected? ==> x !in e.tools)
    ensures LastResource(values + [e], id, x, i) && i < |values| ==>
              LastResource(values, id, x, i) && (values + [e])[i] == values[i] && (e.id == id && e.Connected? ==> x !in e.resources)
  {
    UnderOneMore(values, e, id);
  }

  lemma LatestEntered(entries: map<string, Found>, values: seq<Found>, e: Found, id: string)
    requires id in entries && Latest(entries[id], values, id)
    requires e.id == id && e.Connected? ==> e.connection == entries[id].connection
    ensures Latest(Entered(entries, e)[id], values + [e], id)
  {
    forall x, i | LastTool(values + [e], id, x, i) || LastResource(values + [e], id, x, i)
      ensures LastTool(values + [e], id, x, i) ==>
                x in Entered(entries, e)[id].tools && Entered(entries, e)[id].tools[x] == (values + [e])[i].tools[x]
      ensures LastResource(values + [e], id, x, i) ==>
                x in Entered(entries, e)[id].resources && Entered(entries, e)[id].resources[x] == (values + [e])[i].resources[x]
    {
      LastOneMore(values, e, id, x, i);
    }
  }

  lemma LatestBegins(values: seq<Found>, e: Found)
    requires e.Connected? && NothingResolved(values, e.id)
    ensures Latest(e, values + [e], e.id)
  {
    forall x, i | LastTool(values + [e], e.id, x, i) || LastResource(values + [e], e.id, x, i) ensures i == |values| {
      LastOneMore(values, e, e.id, x, i);
    }
  }

  /** Of several definitions under one name the last counts, for tools and for resources. */
  lemma {:induction false} LastDefinitionCounts(values: seq<Found>, id: string, connection: string, first: int)
    requires OneConnection(values, id, connection) && FirstResolved(values, id, first) && values[first].Connected?
    ensures id in AllEntered(values) && Latest(AllEntered(values)[id], values, id)
    decreases |values|
  {
    var front, e := values[..|values| - 1], values[|values| - 1];
    assert values == front + [e];
    FirstOneMore(front, e, id);
    ResolvedOneMore(front, e, id);
    if FirstResolved(front, id, first) {
      EntryIsTheUnion(front, id, connection, first);
      LastDefinitionCounts(front, id, connection, first);
      assert e.id == id && e.Connected? ==> Resolved(values, id, e);
      LatestEntered(AllEntered(front), front, e, id);
    } else {
      FirstResourceOrLastFailureStays(front, id);
      LatestBegins(front, e);
    }
  }

  /** With conflicting connections the outcome depends on the order: the last of three may win or lose. */
  lemma ConflictsDependOnOrder(id: string)
    ensures var a, b := Connected(id, "a", [], false, false, [], map[], map[]), Connected(id, "b", [], false, false, [], map[], map[]);
            AllEntered([a, b, a]) == map[id := a] && AllEntered([a, a, b]) == map[id := Unresolved(id, CONFLICT)]
  {
    var a, b := Connected(id, "a", [], false, false, [], map[], map[]), Connected(id, "b", [], false, false, [], map[], map[]);
    assert [a, b, a][..2] == [a, b] && [a, b][..1] == [a] && [a][..0] == [] && [a, a, b][..2] == [a, a] && [a, a][..1] == [a];
    assert AllEntered([a]) == map[id := a];
    assert AllEntered([a, b]) == map[id := Unresolved(id, CONFLICT)];
    UniqueStays<string>([]);
    assert United(a, a) == a;
    assert AllEntered([a, a]) == map[id := a];
  }

  // ---------------------------------------------------------------------------
  // Choosing an account for a connector source
  // ---------------------------------------------------------------------------

  datatype Account = Account(connector: string, connection: string)

  datatype Choice = Chosen(account: Account) | SelectionUnavailable | Rebind | BoundUnavailable | SelectionRequired | ConnectionRequired

  /** The request: accounts bound in the session by selector, and an explicit selection. */
  datatype Wishes = Wishes(bindings: map<string, Account>, selection: Option<Account>)

  /** Bindings that concern a source: its own, and those of the connectors it may use. */
  function Relevant(w: Wishes, source: string, available: set<string>): set<Account> {
    set x | x in w.bindings && (x == source || w.bindings[x].connector in available) :: w.bindings[x]
  }

  ghost function TheOne(accounts: set<Account>): (a: Account)
    requires |accounts| == 1
    ensures accounts == {a}
  {
    OneElement(accounts);
    var a :| accounts == {a};
    a
  }

  lemma TheOneExactly(accounts: set<Account>, a: Account)
    ensures |accounts| == 1 && TheOne(accounts) == a <==> accounts == {a}
  {
    if accounts == {a} {
      assert |accounts| == 1;
      assert TheOne(accounts) in accounts;
    }
  }

  lemma OneElement(accounts: set<Account>)
    requires |accounts| == 1
    ensures exists a :: accounts == {a}
  {
    var a :| a in accounts;
    assert |accounts - {a}| == 0;
    assert accounts == {a};
  }

  /** The source's own binding, or the one account that all bindings of its connectors agree on. */
  ghost function BoundAccount(w: Wishes, source: string, available: set<string>): Option<Account> {
    if source in w.bindings then Some(w.bindings[source])
    else if |Relevant(w, source, available)| == 1 then Some(TheOne(Relevant(w, source, available)))
    else None
  }

  predicate Selects(w: Wishes, available: set<string>) {
    w.selection.Some? && w.selection.value.connector in available
  }

  /** Candidates are the usable accounts of the available connectors; complete says that none is missing. */
  ghost function ChooseAccount(w: Wishes, source: string, available: set<string>, candidates: seq<Account>, complete: bool): Choice {
    var bound := BoundAccount(w, source, available);
    if Selects(w, available) && w.selection.value !in candidates then SelectionUnavailable
    else if bound.Some? && Selects(w, available) && w.selection != bound then Rebind
    else if bound.Some? then (if bound.value in candidates then Chosen(bound.value) else BoundUnavailable)
    else if Selects(w, available) then Chosen(w.selection.value)
    else if complete && |candidates| == 1 then Chosen(candidates[0])
    else if candidates != [] || !complete then SelectionRequired
    else ConnectionRequired
  }

  /** An account is chosen exactly if it is usable, agrees with what is bound and with what is selected, and is the only one where neither says. */
  lemma ChosenExactly(w: Wishes, source: string, available: set<string>, candidates: seq<Account>, complete: bool, a: Account)
    ensures var bound := BoundAccount(w, source, available);
            ChooseAccount(w, source, available, candidates, complete) == Chosen(a)
            <==> a in candidates && (bound.Some? ==> bound == Some(a)) && (Selects(w, available) ==> w.selection == Some(a))
                 && (bound == None && !Selects(w, available) ==> complete && candidates == [a])
  {
    var bound := BoundAccount(w, source, available);
    if bound == None && !Selects(w, available) && complete && |candidates| == 1 {
      assert candidates == [candidates[0]];
    }
  }

  /** An account is bound for a source by its own selector, or else if all bindings of its connectors name that account. */
  lemma BoundExactly(w: Wishes, source: string, available: set<string>, a: Account)
    ensures BoundAccount(w, source, available) == Some(a) <==>
              if source in w.bindings then w.bindings[source] == a
              else && (exists x :: x in w.bindings && w.bindings[x].connector in available)
                   && forall x :: x in w.bindings && w.bindings[x].connector in available ==> w.bindings[x] == a
  {
    var relevant := Relevant(w, source, available);
    if source !in w.bindings {
      TheOneExactly(relevant, a);
      assert forall x :: x in w.bindings && w.bindings[x].connector in available ==> w.bindings[x] in relevant;
      assert forall y :: y in relevant ==> exists x :: x in w.bindings && w.bindings[x].connector in available && w.bindings[x] == y;
      if (exists x :: x in w.bindings && w.bindings[x].connector in available)
         && forall x :: x in w.bindings && w.bindings[x].connector in available ==> w.bindings[x] == a {
        assert relevant == {a};
      }
    }
  }

  /** Where no account is chosen the reason is one of five, decided by the selection, the binding and the candidates in this order. */
  lemma RefusedExactly(w: Wishes, source: string, available: set<string>, candidates: seq<Account>, complete: bool)
    ensures var choice := ChooseAccount(w, source, available, candidates, complete);
            var bound := BoundAccount(w, source, available);
            var selects := w.selection.Some? && w.selection.value.connector in available;
            && (choice == SelectionUnavailable <==> selects && w.selection.value !in candidates)
            && (choice == Rebind <==> selects && w.selection.value in candidates && bound.Some? && bound != w.selection)
            && (choice == BoundUnavailable <==> !selects && bound.Some? && bound.value !in candidates)
            && (choice == ConnectionRequired <==> !selects && bound == None && complete && candidates == [])
            && (choice == SelectionRequired <==> !selects && bound == None && !(complete && |candidates| <= 1))
  {}

  /** The connector that a source resolved to, under the account chosen for it. */
  ghost predicate ResolvedFor(w: Wishes, v: Found, source: string, available: set<string>, candidates: seq<Account>, complete: bool, a: Account) {
    v.Connected? && v.selectors == [source] && v.id == "connector:" + a.connector && v.connection == a.connection
    && ChooseAccount(w, source, available, candidates, complete) == Chosen(a)
  }

  /** What some source resolved to: a connector under its account, or nothing. */
  ghost predicate Answers(w: Wishes, v: Found) {
    v.Connected? ==> exists source, available, candidates, complete, a :: ResolvedFor(w, v, source, available, candidates, complete, a)
  }

  /** Every selector bound in the session stays on its connector and connection. */
  ghost predicate Keeps(w: Wishes, v: Found) {
    v.Connected? ==> forall x :: x in v.selectors && x in w.bindings ==>
      v.id == "connector:" + w.bindings[x].connector && v.connection == w.bindings[x].connection
  }

  lemma AnswersKeep(w: Wishes, v: Found)
    requires Answers(w, v)
    ensures Keeps(w, v)
  {
    if v.Connected? {
      var source, available, candidates, complete, a :| ResolvedFor(w, v, source, available, candidates, complete, a);
      ChosenExactly(w, source, available, candidates, complete, a);
    }
  }

  /** So does every entry of a response, however many sources were merged into it. */
  lemma {:induction false} ResponsesKeepBoundSelectors(w: Wishes, values: seq<Found>, id: string)
    requires forall v :: v in values ==> Answers(w, v)
    ensures id in AllEntered(values) ==> Keeps(w, AllEntered(values)[id]) && AllEntered(values)[id].id == id
    decreases |values|
  {
    if values != [] {
      var front, v := values[..|values| - 1], values[|values| - 1];
      assert v in values;
      ResponsesKeepBoundSelectors(w, front, id);
      AnswersKeep(w, v);
      if id == v.id && id in AllEntered(front) && AllEntered(front)[id].Connected? && v.Connected? {
        if AllEntered(front)[id].connection == v.connection { UnitedKeeps(w, AllEntered(front)[id], v); }
      }
    }
  }

  lemma UnitedKeeps(w: Wishes, previous: Found, v: Found)
    requires previous.Connected? && v.Connected? && Keeps(w, previous) && Keeps(w, v)
    requires previous.id == v.id && previous.connection == v.connection
    ensures Keeps(w, United(previous, v))
  {}

  // ---------------------------------------------------------------------------
  // Admission under capacity limits
  // ---------------------------------------------------------------------------

  /** A failed or catalog entry, a skill, or a resolved source with its number of definitions. */
  datatype Entry = Failure(id: string) | Skill(id: string) | Source(id: string, tools: nat, resources: nat)

  datatype Result = Kept(entry: Entry) | OverCapacity(id: string)

  function Reserved(entry: Entry): Result {
    if entry.Source? then OverCapacity(entry.id) else Kept(entry)
  }

  function AllReserved(complete: seq<Entry>): seq<Result> {
    seq(|complete|, i requires 0 <= i < |complete| => Reserved(complete[i]))
  }

  function ToolCount(r: Result): nat {
    if r.Kept? && r.entry.Source? then r.entry.tools else 0
  }

  function ResourceCount(r: Result): nat {
    if r.Kept? && r.entry.Source? then r.entry.resources else 0
  }

  function Total(results: seq<Result>, count: Result -> nat): nat {
    if results == [] then 0 else count(results[0]) + Total(results[1..], count)
  }

  predicate Within(results: seq<Result>, fits: seq<Result> -> bool) {
    Total(results, ToolCount) <= MAX_TOOLS && Total(results, ResourceCount) <= MAX_RESOURCES && fits(results)
  }

  /** The results so far, this entry kept, and only reservations after it. */
  function WithEntry(complete: seq<Entry>, results: seq<Result>, i: nat): seq<Result>
    requires i < |complete| == |results|
  {
    results[..i] + [Kept(complete[i])] + AllReserved(complete)[i + 1..]
  }

  /** Every entry keeps its place; a source is kept exactly when it fits beside what was kept before it. */
  ghost predicate Admission(complete: seq<Entry>, results: seq<Result>, fits: seq<Result> -> bool, n: nat) {
    |results| == |complete| && n <= |complete| &&
    forall i :: 0 <= i < n ==>
      results[i] == if complete[i].Source? && !Within(WithEntry(complete, results, i), fits)
                    then OverCapacity(complete[i].id) else Kept(complete[i])
  }

  lemma {:induction false} TotalOfConcat(xs: seq<Result>, ys: seq<Result>, count: Result -> nat)
    ensures Total(xs + ys, count) == Total(xs, count) + Total(ys, count)
  {
    if xs == [] {
      assert xs + ys == ys;
    } else {
      TotalOfConcat(xs[1..], ys, count);
      assert (xs + ys)[1..] == xs[1..] + ys;
    }
  }

  lemma TotalAfter(results: seq<Result>, i: nat, r: Result, count: Result -> nat)
    requires i < |results|
    ensures Total(results[i := r], count) == Total(results, count) - count(results[i]) + count(r)
  {
    assert results == results[..i] + ([results[i]] + results[i + 1..]);
    assert results[i := r] == results[..i] + ([r] + results[i + 1..]);
    TotalOfConcat(results[..i], [results[i]] + results[i + 1..], count);
    TotalOfConcat(results[..i], [r] + results[i + 1..], count);
    assert ([results[i]] + results[i + 1..])[1..] == ([r] + results[i + 1..])[1..];
  }

  lemma {:induction false} ReservationsAreFree(results: seq<Result>, count: Result -> nat)
    requires forall i :: 0 <= i < |results| ==> count(results[i]) == 0
    ensures Total(results, count) == 0
  {
    if results != [] { ReservationsAreFree(results[1..], count); }
  }

  method Admit(complete: seq<Entry>, fits: seq<Result> -> bool) returns (results: seq<Result>)
    ensures Admission(complete, results, fits, |complete|)
    ensures Total(results, ToolCount) <= MAX_TOOLS && Total(results, ResourceCount) <= MAX_RESOURCES
    ensures fits(AllReserved(complete)) ==> fits(results)
  {
    var tools, resources := 0, 0;
    results := AllReserved(complete);
    ReservationsAreFree(results, ToolCount);
    ReservationsAreFree(results, ResourceCount);
    for index := 0 to |complete|
      invariant Admission(complete, results, fits, index)
      invariant results[index..] == AllReserved(complete)[index..]
      invariant tools == Total(results, ToolCount) <= MAX_TOOLS
      invariant resources == Total(results, ResourceCount) <= MAX_RESOURCES
      invariant fits(AllReserved(complete)) ==> fits(results)
    {
      var entry := complete[index];
      assert results[index] == results[index..][0] == Reserved(entry);
      if entry.Source? {
        ghost var before := results;
        Placed(complete, results, index);
        TotalAfter(results, index, Kept(entry), ToolCount);
        TotalAfter(results, index, Kept(entry), ResourceCount);
        tools, resources := tools + entry.tools, resources + entry.resources;
        results := results[index := Kept(entry)];
        if tools > MAX_TOOLS || resources > MAX_RESOURCES || !fits(results) {
          tools, resources := tools - entry.tools, resources - entry.resources;
          results := results[index := OverCapacity(entry.id)];
          assert results == before;
        }
        StillAdmitted(complete, before, results, index, fits);
      }
      assert results[index + 1..] == results[index..][1..];
    }
  }

  lemma Placed(complete: seq<Entry>, results: seq<Result>, i: nat)
    requires i < |complete| == |results| && results[i..] == AllReserved(complete)[i..]
    ensures results[i := Kept(complete[i])] == WithEntry(complete, results, i)
  {
    assert results[i + 1..] == results[i..][1..] == AllReserved(complete)[i + 1..];
  }

  lemma StillAdmitted(complete: seq<Entry>, before: seq<Result>, after: seq<Result>, n: nat, fits: seq<Result> -> bool)
    requires n < |complete| && Admission(complete, before, fits, n) && |after| == |before| && after[..n] == before[..n]
    requires after[n] == if complete[n].Source? && !Within(WithEntry(complete, before, n), fits)
                         then OverCapacity(complete[n].id) else Kept(complete[n])
    ensures Admission(complete, after, fits, n + 1)
  {
    forall i | 0 <= i <= n ensures WithEntry(complete, after, i) == WithEntry(complete, before, i) {
      assert after[..i] == after[..n][..i] && before[..i] == before[..n][..i];
    }
    forall i | 0 <= i < n ensures after[i] == before[i] {
      assert after[..n][i] == before[..n][i];
    }
  }

  /** The rule leaves no choice: it fixes the results. */
  lemma {:induction false} AdmissionIsDetermined(complete: seq<Entry>, a: seq<Result>, b: seq<Result>, fits: seq<Result> -> bool, n: nat)
    requires Admission(complete, a, fits, n) && Admission(complete, b, fits, n)
    ensures a[..n] == b[..n]
    decreases n
  {
    if n > 0 {
      AdmissionIsDetermined(complete, a, b, fits, n - 1);
      assert WithEntry(complete, a, n - 1) == WithEntry(complete, b, n - 1);
      assert a[..n] == a[..n - 1] + [a[n - 1]] && b[..n] == b[..n - 1] + [b[n - 1]];
    }
  }

  /** The definitions of the sources that were kept. */
  function KeptTools(results: seq<Result>): nat {
    if results == [] then 0
    else KeptTools(results[1..]) + match results[0] case Kept(Source(_, tools, _)) => tools case _ => 0
  }

  function KeptResources(results: seq<Result>): nat {
    if results == [] then 0
    else KeptResources(results[1..]) + match results[0] case Kept(Source(_, _, resources)) => resources case _ => 0
  }

  lemma {:induction false} TotalsAreKept(results: seq<Result>)
    ensures Total(results, ToolCount) == KeptTools(results) && Total(results, ResourceCount) == KeptResources(results)
  {
    if results != [] { TotalsAreKept(results[1..]); }
  }

  /** A response with this source, what was decided before it, and every later source still reserved as over capacity. */
  ghost predicate Tentative(complete: seq<Entry>, results: seq<Result>, i: nat, response: seq<Result>)
    requires i < |complete| == |results|
  {
    && |response| == |complete| && response[..i] == results[..i] && response[i] == Kept(complete[i])
    && forall j :: i < j < |complete| ==>
         response[j] == if complete[j].Source? then OverCapacity(complete[j].id) else Kept(complete[j])
  }

  lemma WithEntryIsTentative(complete: seq<Entry>, results: seq<Result>, i: nat)
    requires i < |complete| == |results|
    ensures Tentative(complete, results, i, WithEntry(complete, results, i))
  {}

  lemma WithEntryTotals(complete: seq<Entry>, results: seq<Result>, i: nat)
    requires i < |complete| == |results| && complete[i].Source?
    ensures Total(WithEntry(complete, results, i), ToolCount) == KeptTools(results[..i]) + complete[i].tools
    ensures Total(WithEntry(complete, results, i), ResourceCount) == KeptResources(results[..i]) + complete[i].resources
  {
    var later, kept := AllReserved(complete)[i + 1..], [Kept(complete[i])];
    TotalOfConcat(results[..i] + kept, later, ToolCount);
    TotalOfConcat(results[..i] + kept, later, ResourceCount);
    TotalOfConcat(results[..i], kept, ToolCount);
    TotalOfConcat(results[..i], kept, ResourceCount);
    ReservationsAreFree(later, ToolCount);
    ReservationsAreFree(later, ResourceCount);
    TotalsAreKept(results[..i]);
    assert kept[1..] == [];
  }

  /**
   A source is kept exactly if its definitions bring those kept before it to at most 200 tools and 200 resources
   and the response fits with every later source still reserved; every other entry is kept in its place.
   */
  lemma KeptExactly(complete: seq<Entry>, results: seq<Result>, fits: seq<Result> -> bool, i: nat, response: seq<Result>)
    requires Admission(complete, results, fits, |complete|) && i < |complete| && Tentative(complete, results, i, response)
    ensures !complete[i].Source? ==> results[i] == Kept(complete[i])
    ensures complete[i].Source? ==>
              results[i] == if KeptTools(results[..i]) + complete[i].tools <= 200
                               && KeptResources(results[..i]) + complete[i].resources <= 200 && fits(response)
                            then Kept(complete[i]) else OverCapacity(complete[i].id)
  {
    WithEntryIsTentative(complete, results, i);
    assert response == WithEntry(complete, results, i) by {
      assert response == response[..i] + [response[i]] + response[i + 1..];
    }
    if complete[i].Source? { WithEntryTotals(complete, results, i); }
  }
}
