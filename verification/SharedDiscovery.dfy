/**
 Coalesced discovery in apps/goose-extension/src/activation.ts: callers with the same
 request share one run, each may cancel on its own, and the run is aborted only by its
 last waiter. `Board` says who is attached to which run and counts nothing; the class
 `SharedDiscovery` keeps the counters of the source and refines it; `Runs` ranges over
 every order of calls, cancellations, invalidations, settlements and deliveries.
 */
module SharedDiscovery {
  import opened Commons

  const MAX_WAITERS: nat := 16

  type Caller = int
  type Run = int
  type Outcome = int

  datatype Result = Busy | Cancelled | Got(outcome: Outcome)

  /**
   attached: callers whose promise is open, with the run they wait for; joined: the same
   for ever; born: the number of invalidations before the run began.
   */
  datatype Board = Board(current: Option<Run>, next: Run, keys: map<Run, string>, aborted: set<Run>, outcomes: map<Run, Outcome>,
                         attached: map<Caller, Run>, joined: map<Caller, Run>, results: map<Caller, Result>,
                         cancelled: set<Caller>, born: map<Run, int>, epoch: int)

  const INITIAL := Board(None, 0, map[], {}, map[], map[], map[], map[], {}, map[], 0)

  ghost function WaitersOf(attached: map<Caller, Run>, r: Run): set<Caller> {
    set c | c in attached && attached[c] == r
  }

  /** The run that a request would share: the current one, if it has the same key and is not aborted. */
  ghost function Sharable(b: Board, key: string): Option<Run> {
    if b.current.Some? && b.current.value in b.keys && b.keys[b.current.value] == key && b.current.value !in b.aborted
    then b.current
    else None
  }

  ghost function WithRun(b: Board, key: string): Board {
    if Sharable(b, key).Some? then b
    else b.(current := Some(b.next), next := b.next + 1, keys := b.keys[b.next := key], born := b.born[b.next := b.epoch])
  }

  ghost function Attach(b: Board, c: Caller, r: Run): Board {
    if MAX_WAITERS <= |WaitersOf(b.attached, r)| then b.(results := b.results[c := Busy])
    else b.(attached := b.attached[c := r], joined := b.joined[c := r])
  }

  ghost function Join(b: Board, c: Caller, key: string): Board {
    Attach(WithRun(b, key), c, WithRun(b, key).current.value)
  }

  ghost function Cancel(b: Board, c: Caller): Board {
    var t := b.(cancelled := b.cancelled + {c});
    if c !in b.attached then t
    else
      var r := b.attached[c];
      var left := b.attached - {c};
      t.(attached := left, results := b.results[c := Cancelled],
         aborted := if WaitersOf(left, r) == {} then b.aborted + {r} else b.aborted)
  }

  ghost function Deliver(b: Board, c: Caller): Board
    requires c in b.attached && b.attached[c] in b.outcomes
  {
    b.(attached := b.attached - {c}, results := b.results[c := Got(b.outcomes[b.attached[c]])])
  }

  /** The reaction that clears the shared run once it has settled. */
  ghost function Clear(b: Board, r: Run): Board {
    if b.current == Some(r) then b.(current := None) else b
  }

  // ---------------------------------------------------------------------------
  // The class of the source: shared records with a key, a counter and an abort flag
  // ---------------------------------------------------------------------------

  datatype Record = Record(key: string, waiters: nat, aborted: bool)

  class SharedDiscovery {
    var shared: Option<Run>
    /** The records that the callers' closures refer to, live or superseded. */
    var records: map<Run, Record>
    var next: Run
    ghost var attached: map<Caller, Run>

    ghost predicate Valid()
      reads this
    {
      && (shared.Some? ==> shared.value in records)
      && (forall r :: r in records ==> r < next && records[r].waiters == |WaitersOf(attached, r)|)
      && (forall c :: c in attached ==> attached[c] in records)
    }

    /** The counters and flags say what the board says. */
    ghost predicate Shows(b: Board)
      reads this
    {
      && shared == b.current && next == b.next && attached == b.attached
      && (forall r :: r in records <==> r in b.keys)
      && (forall r :: r in records ==> records[r].key == b.keys[r] && (records[r].aborted <==> r in b.aborted))
    }

    constructor ()
      ensures Valid() && Shows(INITIAL)
    {
      shared, records, next, attached := None, map[], 0, map[];
    }

    /** The run to share, begun now unless the current one can be joined. */
    method RunFor(key: string, ghost b: Board)
      requires Valid() && Shows(b) && Sane(b)
      modifies this`shared, this`records, this`next
      ensures Valid() && Shows(WithRun(b, key)) && shared.Some?
      ensures if old(shared).Some? && old(records)[old(shared).value].key == key && !old(records)[old(shared).value].aborted
              then shared == old(shared) && next == old(next) && records == old(records)
              else shared == Some(old(next)) && next == old(next) + 1 && records == old(records)[old(next) := Record(key, 0, false)]
    {
      if shared.Some? {
        ghost var r := shared.value;
        assert r in b.keys && records[r].key == b.keys[r];
      }
      if shared == None || records[shared.value].key != key || records[shared.value].aborted {
        NoWaiters(attached, records.Keys, next);
        records := records[next := Record(key, 0, false)];
        shared := Some(next);
        next := next + 1;
      }
    }

    /** None: refused as busy. Some(r): the caller now waits for run r. */
    method DiscoverShared(c: Caller, key: string, ghost b: Board) returns (reply: Option<Run>)
      requires Valid() && Shows(b) && Sane(b) && c !in attached
      modifies this
      ensures Valid() && Shows(Join(b, c, key))
      ensures reply.Some? <==> c in attached
      ensures reply.Some? ==> attached[c] == reply.value
    {
      RunFor(key, b);
      reply := AttachTo(c, shared.value, WithRun(b, key));
    }

    method AttachTo(c: Caller, current: Run, ghost t: Board) returns (reply: Option<Run>)
      requires Valid() && Shows(t) && current in records && c !in attached
      modifies this`records, this`attached
      ensures Valid() && Shows(Attach(t, c, current))
      ensures reply.Some? <==> c in attached
      ensures reply.Some? ==> attached[c] == reply.value
    {
      if MAX_WAITERS <= records[current].waiters { return None; }
      Attached(attached, c, current);
      records := records[current := records[current].(waiters := records[current].waiters + 1)];
      attached := attached[c := current];
      reply := Some(current);
    }

    method Detach(c: Caller, current: Run)
      requires Valid() && c in attached && attached[c] == current
      modifies this`records, this`attached
      ensures Valid() && attached == old(attached) - {c}
      ensures records == old(records)[current := old(records)[current].(waiters := |WaitersOf(attached, current)|)]
    {
      Detached(attached, c);
      records := records[current := records[current].(waiters := records[current].waiters - 1)];
      attached := attached - {c};
    }

    method CancelCaller(c: Caller, current: Run, ghost b: Board)
      requires Valid() && Shows(b) && c in attached && attached[c] == current
      modifies this`records, this`attached
      ensures Valid() && Shows(Cancel(b, c))
    {
      Detach(c, current);
      if records[current].waiters == 0 {
        records := records[current := records[current].(aborted := true)];
      }
    }

    method DeliverTo(c: Caller, current: Run, ghost b: Board)
      requires Valid() && Shows(b) && c in attached && attached[c] == current && current in b.outcomes
      modifies this`records, this`attached
      ensures Valid() && Shows(Deliver(b, c))
    {
      Detach(c, current);
    }

    method Done(r: Run, ghost b: Board)
      requires Valid() && Shows(b)
      modifies this`shared
      ensures Valid() && Shows(Clear(b, r))
    {
      if shared == Some(r) { shared := None; }
    }

    /** Before a removal or an account selection. */
    method Invalidate(ghost b: Board)
      requires Valid() && Shows(b)
      modifies this`shared
      ensures Valid() && Shows(b.(current := None, epoch := b.epoch + 1))
    {
      shared := None;
    }
  }

  lemma NoWaiters(attached: map<Caller, Run>, known: set<Run>, r: Run)
    requires r !in known && forall c :: c in attached ==> attached[c] in known
    ensures WaitersOf(attached, r) == {}
  {
    assert forall c :: c in attached ==> attached[c] != r;
  }

  lemma Attached(attached: map<Caller, Run>, c: Caller, r: Run)
    requires c !in attached
    ensures |WaitersOf(attached[c := r], r)| == |WaitersOf(attached, r)| + 1
    ensures forall x :: x != r ==> WaitersOf(attached[c := r], x) == WaitersOf(attached, x)
  {
    assert WaitersOf(attached[c := r], r) == WaitersOf(attached, r) + {c};
  }

  lemma Detached(attached: map<Caller, Run>, c: Caller)
    requires c in attached
    ensures WaitersOf(attached - {c}, attached[c]) == WaitersOf(attached, attached[c]) - {c}
    ensures |WaitersOf(attached - {c}, attached[c])| == |WaitersOf(attached, attached[c])| - 1
    ensures forall x :: x != attached[c] ==> WaitersOf(attached - {c}, x) == WaitersOf(attached, x)
  {
    assert c in WaitersOf(attached, attached[c]);
    assert WaitersOf(attached - {c}, attached[c]) == WaitersOf(attached, attached[c]) - {c};
  }

  // ---------------------------------------------------------------------------
  // Every order of events
  // ---------------------------------------------------------------------------

  datatype Event =
    | Calls(c: Caller, key: string)
    | Cancels(c: Caller)
    | Invalidates
    | Settles(r: Run, outcome: Outcome)
    | Clears(r: Run)
    | Delivers(c: Caller)

  ghost predicate Enabled(b: Board, e: Event) {
    match e
    case Calls(c, _) => c !in b.attached && c !in b.results && c !in b.cancelled
    case Cancels(_) => true
    case Invalidates => true
    case Settles(r, _) => r in b.keys && r !in b.outcomes
    case Clears(r) => r in b.outcomes
    case Delivers(c) => c in b.attached && b.attached[c] in b.outcomes
  }

  ghost function Step(b: Board, e: Event): Board
    requires Enabled(b, e)
  {
    match e
    case Calls(c, key) => Join(b, c, key)
    case Cancels(c) => Cancel(b, c)
    case Invalidates => b.(current := None, epoch := b.epoch + 1)
    case Settles(r, outcome) => b.(outcomes := b.outcomes[r := outcome])
    case Clears(r) => Clear(b, r)
    case Delivers(c) => Deliver(b, c)
  }

  ghost predicate Runs(b: Board, es: seq<Event>, b': Board)
    decreases |es|
  {
    if es == [] then b == b'
    else Enabled(b, es[0]) && Runs(Step(b, es[0]), es[1..], b')
  }

  ghost predicate Sane(b: Board) {
    && (forall r :: r in b.keys ==> r < b.next && r in b.born)
    && (b.current.Some? ==> b.current.value in b.keys && b.born[b.current.value] == b.epoch)
    && (forall c :: c in b.attached ==> b.attached[c] in b.keys)
    && (forall r :: r in b.outcomes ==> r in b.keys)
    && (forall r :: r in b.aborted ==> r in b.keys)
  }

  /** No run has more than sixteen waiters, and an aborted run has none. */
  ghost predicate Bounded(b: Board) {
    && (forall r :: |WaitersOf(b.attached, r)| <= MAX_WAITERS)
    && (forall r :: r in b.aborted ==> WaitersOf(b.attached, r) == {})
  }

  /** A caller that joined a run either still waits for it or has exactly one result, and only for the reasons it may. */
  ghost predicate Settled(b: Board) {
    && (forall c :: c in b.joined <==> c in b.attached || (c in b.results && b.results[c] != Busy))
    && (forall c :: c in b.attached ==> c !in b.results && b.attached[c] == b.joined[c] && c !in b.cancelled)
    && (forall c :: c in b.results && b.results[c] == Cancelled ==> c in b.cancelled)
    && (forall c :: c in b.results && b.results[c].Got? ==>
          b.joined[c] in b.outcomes && b.outcomes[b.joined[c]] == b.results[c].outcome)
  }

  ghost predicate Inv(b: Board) {
    Sane(b) && Bounded(b) && Settled(b)
  }

  lemma WithRunKeepsInv(b: Board, key: string)
    requires Inv(b)
    ensures Inv(WithRun(b, key)) && WithRun(b, key).current.Some?
    ensures WithRun(b, key).current.value !in b.aborted
  {
    NoWaiters(b.attached, b.keys.Keys, b.next);
  }

  lemma AttachKeepsInv(t: Board, c: Caller, r: Run)
    requires Inv(t) && c !in t.attached && c !in t.results && c !in t.cancelled
    requires r in t.keys && r !in t.aborted
    ensures Inv(Attach(t, c, r))
  {
    if |WaitersOf(t.attached, r)| < MAX_WAITERS {
      Attached(t.attached, c, r);
      var u := Attach(t, c, r);
      forall x ensures |WaitersOf(u.attached, x)| <= MAX_WAITERS && (x in u.aborted ==> WaitersOf(u.attached, x) == {}) {
        assert x != r ==> WaitersOf(u.attached, x) == WaitersOf(t.attached, x);
      }
      assert Bounded(u);
    }
  }

  lemma JoinKeepsInv(b: Board, c: Caller, key: string)
    requires Inv(b) && Enabled(b, Calls(c, key))
    ensures Inv(Join(b, c, key))
  {
    WithRunKeepsInv(b, key);
    AttachKeepsInv(WithRun(b, key), c, WithRun(b, key).current.value);
  }

  lemma CancelKeepsInv(b: Board, c: Caller)
    requires Inv(b)
    ensures Inv(Cancel(b, c))
  {
    if c in b.attached {
      Detached(b.attached, c);
    }
  }

  lemma StepKeepsInv(b: Board, e: Event)
    requires Inv(b) && Enabled(b, e)
    ensures Inv(Step(b, e))
  {
    match e
    case Calls(c, key) => JoinKeepsInv(b, c, key);
    case Cancels(c) => CancelKeepsInv(b, c);
    case Delivers(c) => Detached(b.attached, c);
    case _ =>
  }

  lemma {:induction false} RunsKeepInv(b: Board, es: seq<Event>, b': Board)
    requires Inv(b) && Runs(b, es, b')
    ensures Inv(b')
    decreases |es|
  {
    if es != [] {
      StepKeepsInv(b, es[0]);
      RunsKeepInv(Step(b, es[0]), es[1..], b');
    }
  }

  /** In every order of events: at most sixteen wait for a run, nobody for an aborted one, and whoever joined waits or has one result. */
  lemma EveryRun(es: seq<Event>, b: Board)
    requires Runs(INITIAL, es, b)
    ensures forall r :: |WaitersOf(b.attached, r)| <= MAX_WAITERS
    ensures forall c :: c in b.attached ==> b.attached[c] !in b.aborted && c !in b.results
    ensures forall c :: c in b.joined ==> c in b.attached || c in b.results
  {
    assert forall r :: WaitersOf(INITIAL.attached, r) == {};
    RunsKeepInv(INITIAL, es, b);
    forall c | c in b.attached ensures b.attached[c] !in b.aborted {
      assert c in WaitersOf(b.attached, b.attached[c]);
    }
  }

  /** A run is aborted only at the moment at which its last waiter cancels. */
  lemma AbortedOnlyByLastWaiter(b: Board, e: Event, r: Run)
    requires Inv(b) && Enabled(b, e) && r !in b.aborted && r in Step(b, e).aborted
    ensures e.Cancels? && WaitersOf(b.attached, r) == {e.c}
  {
    Detached(b.attached, e.c);
    assert e.c in WaitersOf(b.attached, r);
  }

  /** A caller joins only a run for its own request that is not aborted and began after the last invalidation. */
  lemma JoinsOnlyALiveRunOfItsKey(b: Board, c: Caller, key: string)
    requires Inv(b) && Enabled(b, Calls(c, key)) && c in Join(b, c, key).attached
    ensures var t := Join(b, c, key); var r := t.attached[c];
            r in t.keys && t.keys[r] == key && r !in b.aborted && r !in t.aborted && t.born[r] == b.epoch
  {}

  /**
   In every reachable state a caller that joined a run and did not cancel either still
   waits for it, the run not being aborted, or has received exactly the run's outcome; one
   that waits for a settled run can be delivered.
   */
  lemma UncancelledCallerGetsTheOutcome(es: seq<Event>, b: Board, c: Caller)
    requires Runs(INITIAL, es, b) && c in b.joined && c !in b.cancelled
    ensures var r := b.joined[c];
            if c in b.attached then
              b.attached[c] == r && r !in b.aborted && (r in b.outcomes ==> Enabled(b, Delivers(c)))
            else
              r in b.outcomes && c in b.results && b.results[c] == Got(b.outcomes[r])
  {
    assert forall r :: WaitersOf(INITIAL.attached, r) == {};
    RunsKeepInv(INITIAL, es, b);
    if c in b.attached {
      assert c in WaitersOf(b.attached, b.attached[c]);
    }
  }

  /** A result, once given, stays: every caller settles at most once. */
  lemma ResultsAreFinal(b: Board, e: Event, c: Caller)
    requires Inv(b) && Enabled(b, e) && c in b.results
    ensures c in Step(b, e).results && Step(b, e).results[c] == b.results[c]
  {}

  // ---------------------------------------------------------------------------
  // Which calls share a run
  // ---------------------------------------------------------------------------

  /** There is a current run, it is for this request, and nobody aborted it. */
  ghost predicate RunsFor(b: Board, r: Run, key: string) {
    b.current == Some(r) && r in b.keys && b.keys[r] == key && r !in b.aborted
  }

  /** The caller waits for the run, or is refused because sixteen already do; everybody else stays as they are. */
  ghost predicate WaitsOrIsRefused(b: Board, t: Board, c: Caller, r: Run) {
    if |WaitersOf(b.attached, r)| < 16
    then t.attached == b.attached[c := r] && t.joined == b.joined[c := r] && t.results == b.results
    else t.attached == b.attached && t.joined == b.joined && t.results == b.results[c := Busy]
  }

  lemma NobodyWaitsForANewRun(b: Board)
    requires Sane(b)
    ensures WaitersOf(b.attached, b.next) == {} && |WaitersOf(b.attached, b.next)| == 0
  {
    NoWaiters(b.attached, b.keys.Keys, b.next);
  }

  /** A call shares the current run exactly if that is for the same request and not aborted; otherwise it begins exactly one. */
  lemma CallsShareExactly(b: Board, c: Caller, key: string)
    requires Inv(b) && Enabled(b, Calls(c, key))
    ensures var t := Step(b, Calls(c, key));
            && t.aborted == b.aborted && t.outcomes == b.outcomes && t.cancelled == b.cancelled
            && if b.current.Some? && RunsFor(b, b.current.value, key)
               then t.next == b.next && t.current == b.current && t.keys == b.keys && WaitsOrIsRefused(b, t, c, b.current.value)
               else && t.next == b.next + 1 && t.current == Some(b.next) && t.keys == b.keys[b.next := key]
                    && t.attached == b.attached[c := b.next] && t.joined == b.joined[c := b.next] && t.results == b.results
  {
    NobodyWaitsForANewRun(b);
  }

  /** A run stops being the shared one exactly by an invalidation, its own clearing, or a call that cannot share it. */
  lemma SharedUntilExactly(b: Board, e: Event, r: Run)
    requires Inv(b) && Enabled(b, e) && b.current == Some(r)
    ensures Step(b, e).current != Some(r) <==>
              e == Invalidates || e == Clears(r) || (e.Calls? && !RunsFor(b, r, e.key))
    ensures e == Invalidates || e == Clears(r) ==> Step(b, e).current == None
    ensures Step(b, e).epoch == b.epoch + if e == Invalidates then 1 else 0
  {}

  /** Runs once aborted stay so, and keep their request. */
  lemma AbortsStay(b: Board, e: Event, r: Run)
    requires Inv(b) && Enabled(b, e) && r in b.keys
    ensures r in b.aborted ==> r in Step(b, e).aborted
    ensures r in Step(b, e).keys && Step(b, e).keys[r] == b.keys[r]
  {}

  /** No invalidation, no clearing of the run, and no call for another request. */
  ghost predicate Quiet(es: seq<Event>, r: Run, key: string) {
    forall e :: e in es ==> e != Invalidates && e != Clears(r) && (e.Calls? ==> e.key == key)
  }

  lemma {:induction false} StaysShared(b: Board, es: seq<Event>, b': Board, r: Run, key: string)
    requires Inv(b) && Runs(b, es, b') && b.current == Some(r) && r in b.keys && b.keys[r] == key
    requires Quiet(es, r, key) && r !in b'.aborted
    ensures RunsFor(b', r, key) && r !in b.aborted && Inv(b')
    decreases |es|
  {
    if es != [] {
      assert es[0] in es && forall e :: e in es[1..] ==> e in es;
      var t := Step(b, es[0]);
      StepKeepsInv(b, es[0]);
      AbortsStay(b, es[0], r);
      if r in b.aborted {
        AbortedRun(t, es[1..], b', r);
      }
      SharedUntilExactly(b, es[0], r);
      StaysShared(t, es[1..], b', r, key);
    }
  }

  lemma {:induction false} AbortedRun(b: Board, es: seq<Event>, b': Board, r: Run)
    requires Inv(b) && Runs(b, es, b') && r in b.keys && r in b.aborted
    ensures r in b'.aborted
    decreases |es|
  {
    if es != [] {
      StepKeepsInv(b, es[0]);
      AbortsStay(b, es[0], r);
      AbortedRun(Step(b, es[0]), es[1..], b', r);
    }
  }

  /**
   Equal requests share: two calls with one request, with no invalidation, no clearing of its run, no abort of it
   and no other request in between, wait for one and the same run or are refused because sixteen wait for it.
   */
  lemma EqualRequestsShare(b: Board, first: Caller, key: string, es: seq<Event>, b': Board, second: Caller, r: Run)
    requires Inv(b) && Enabled(b, Calls(first, key)) && Step(b, Calls(first, key)).current == Some(r)
    requires Runs(Step(b, Calls(first, key)), es, b') && Quiet(es, r, key) && r !in b'.aborted
    requires Enabled(b', Calls(second, key))
    ensures WaitsOrIsRefused(b, Step(b, Calls(first, key)), first, r)
    ensures WaitsOrIsRefused(b', Step(b', Calls(second, key)), second, r) && Step(b', Calls(second, key)).next == b'.next
  {
    NobodyWaitsForANewRun(b);
    CallsShareExactly(b, first, key);
    StepKeepsInv(b, Calls(first, key));
    StaysShared(Step(b, Calls(first, key)), es, b', r, key);
    CallsShareExactly(b', second, key);
  }

  /** A caller that cancels leaves alone; the run is aborted with it exactly if nobody else waits for it. */
  lemma CancelsExactly(b: Board, c: Caller)
    requires Inv(b)
    ensures var t := Step(b, Cancels(c));
            && t.attached == b.attached - {c} && t.cancelled == b.cancelled + {c} && t.current == b.current && t.next == b.next
            && t.results == (if c in b.attached then b.results[c := Cancelled] else b.results)
            && forall r :: r in t.aborted <==> r in b.aborted || WaitersOf(b.attached, r) == {c}
  {
    if c in b.attached {
      Detached(b.attached, c);
      assert c in WaitersOf(b.attached, b.attached[c]);
    } else {
      assert b.attached - {c} == b.attached;
    }
    forall r | WaitersOf(b.attached, r) == {c} ensures c in b.attached && r == b.attached[c] {
      assert c in WaitersOf(b.attached, r);
    }
  }

  /** A settled run answers whoever still waits for it, one by one, and nobody else. */
  lemma DeliversExactly(b: Board, c: Caller)
    requires Enabled(b, Delivers(c))
    ensures var t := Step(b, Delivers(c));
            && t.attached == b.attached - {c} && t.results == b.results[c := Got(b.outcomes[b.attached[c]])]
            && t.aborted == b.aborted && t.current == b.current && t.next == b.next
  {}

  /** Whoever waits is answered: once its run settles, delivery gives it that outcome. */
  lemma WaitersAreAnswered(b: Board, c: Caller, outcome: Outcome)
    requires Inv(b) && c in b.attached && b.attached[c] !in b.outcomes
    ensures var t := Step(b, Settles(b.attached[c], outcome));
            Enabled(t, Delivers(c)) && Step(t, Delivers(c)).results == b.results[c := Got(outcome)]
  {}

  lemma SharedRunIsOldOrNew(b: Board, e: Event)
    requires Sane(b) && Enabled(b, e)
    ensures b.next <= Step(b, e).next
    ensures Step(b, e).current == None || Step(b, e).current == b.current || Step(b, e).current == Some(b.next)
  {}

  /** Every run from a number on, or none, is the one to share. */
  lemma {:induction false} LaterRunsAreShared(b: Board, es: seq<Event>, b': Board, first: Run)
    requires Inv(b) && Runs(b, es, b') && first <= b.next && (b.current.Some? ==> first <= b.current.value)
    ensures Inv(b') && first <= b'.next && (b'.current.Some? ==> first <= b'.current.value)
    decreases |es|
  {
    if es != [] {
      var t := Step(b, es[0]);
      StepKeepsInv(b, es[0]);
      SharedRunIsOldOrNew(b, es[0]);
      LaterRunsAreShared(t, es[1..], b', first);
    }
  }

  /** After an invalidation no call ever waits for a run that began before it. */
  lemma InvalidatedRunsAreNotJoined(b: Board, es: seq<Event>, b': Board, c: Caller, key: string)
    requires Inv(b) && Runs(Step(b, Invalidates), es, b') && Enabled(b', Calls(c, key))
    ensures var t := Step(b', Calls(c, key)); c in t.attached ==> b.next <= t.attached[c]
  {
    StepKeepsInv(b, Invalidates);
    LaterRunsAreShared(Step(b, Invalidates), es, b', b.next);
    CallsShareExactly(b', c, key);
  }

  /** A run that has settled can be cleared, and is then joined no more. */
  lemma SettledRunsAreCleared(b: Board, r: Run, c: Caller, key: string)
    requires Inv(b) && r in b.outcomes && Enabled(b, Calls(c, key))
    ensures var t := Step(b, Clears(r)); Enabled(t, Calls(c, key)) && t.current != Some(r) && t.attached == b.attached
    ensures var t := Step(Step(b, Clears(r)), Calls(c, key)); c in t.attached ==> t.attached[c] != r
  {
    StepKeepsInv(b, Clears(r));
    CallsShareExactly(Step(b, Clears(r)), c, key);
  }
}
