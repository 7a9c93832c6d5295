/**
 The signing-key cache of packages/python-sdk/src/weldall/discovery.py: a single-flight
 refresh under a condition variable with a time to live, a throttle and shared errors.
 Each critical section is one method of `WeldallDiscovery`; `System` interleaves any
 number of threads between those sections. Times are seconds of the monotonic clock.
 */
module JwksCache {
  import opened Commons

  const JWKS_TTL_SECONDS := 60.0
  const UNKNOWN_REFRESH_SECONDS := 5.0
  const MAX_KEYS := 20

  type Jwk = int
  type Keys = map<string, Jwk>

  /** An element of the fetched list; admissible if it is an object with a non-empty kid and a P-256 public key. */
  datatype Candidate = Candidate(isObject: bool, kid: Option<string>, isP256: bool, jwk: Jwk)

  /** What a fetch brings: nothing usable, or a list under "keys". */
  datatype Body = Unusable | KeyList(candidates: seq<Candidate>)

  predicate Admissible(c: Candidate, known: Keys) {
    c.isObject && c.kid.Some? && c.kid.value != "" && c.kid.value !in known && c.isP256
  }

  /** How many candidates are read before the first inadmissible one. */
  function GoodPrefix(candidates: seq<Candidate>, known: Keys): (n: nat)
    ensures n <= |candidates|
  {
    if candidates == [] || !Admissible(candidates[0], known) then 0
    else 1 + GoodPrefix(candidates[1..], known[candidates[0].kid.value := candidates[0].jwk])
  }

  /** Every element is an object with a name and a P-256 key, and no two have one name. */
  predicate WellFormed(candidates: seq<Candidate>) {
    && (forall i :: 0 <= i < |candidates| ==>
          candidates[i].isObject && candidates[i].kid.Some? && candidates[i].kid.value != "" && candidates[i].isP256)
    && (forall i, j :: 0 <= i < j < |candidates| ==> candidates[i].kid != candidates[j].kid)
  }

  /** The complete key set of a well-formed list. */
  ghost function KeySet(candidates: seq<Candidate>): Keys
    requires WellFormed(candidates)
  {
    if candidates == [] then map[]
    else
      var rest := candidates[..|candidates| - 1];
      KeySet(rest)[candidates[|rest|].kid.value := candidates[|rest|].jwk]
  }

  lemma {:induction false} KeySetMembers(candidates: seq<Candidate>, kid: string)
    requires WellFormed(candidates)
    ensures kid in KeySet(candidates) <==> exists i :: 0 <= i < |candidates| && candidates[i].kid == Some(kid)
    ensures forall i :: 0 <= i < |candidates| && candidates[i].kid == Some(kid) ==>
              kid in KeySet(candidates) && KeySet(candidates)[kid] == candidates[i].jwk
  {
    if candidates != [] {
      var rest := candidates[..|candidates| - 1];
      KeySetMembers(rest, kid);
      assert forall i :: 0 <= i < |rest| ==> candidates[i] == rest[i];
      if exists i :: 0 <= i < |candidates| && candidates[i].kid == Some(kid) {
        var i :| 0 <= i < |candidates| && candidates[i].kid == Some(kid);
        assert i < |rest| ==> rest[i].kid == Some(kid);
      }
    }
  }

  // ---------------------------------------------------------------------------
  // The critical sections
  // ---------------------------------------------------------------------------

  datatype Cache = Cache(keys: Keys, expiresAt: real, unknownRefreshAt: real, loading: bool, failed: bool)

  datatype Decision = Wait | Return | Load

  function Entered(c: Cache, force: bool, throttled: bool, now: real): (Cache, Decision) {
    if c.loading then (c, Wait)
    else if !force && c.keys != map[] && now < c.expiresAt then (c, Return)
    else if throttled && now < c.unknownRefreshAt then (c, Return)
    else
      (c.(loading := true, failed := false,
          unknownRefreshAt := if throttled then now + UNKNOWN_REFRESH_SECONDS else c.unknownRefreshAt),
       Load)
  }

  /** A waiter that holds the lock again goes on waiting while something loads, and else leaves with the shared error or without. */
  function Woken(c: Cache): Option<bool> {
    if c.loading then None else Some(c.failed)
  }

  function Published(c: Cache, next: Option<Keys>, failure: bool, now: real): Cache {
    var base := c.(loading := false, failed := failure);
    if next.Some? then base.(keys := next.value, expiresAt := now + JWKS_TTL_SECONDS) else base
  }

  class WeldallDiscovery {
    var keys: Keys
    var expiresAt: real
    var unknownRefreshAt: real
    var loading: bool
    var failed: bool

    function Model(): Cache
      reads this
    {
      Cache(keys, expiresAt, unknownRefreshAt, loading, failed)
    }

    constructor ()
      ensures Model() == Cache(map[], 0.0, 0.0, false, false)
    {
      keys, expiresAt, unknownRefreshAt, loading, failed := map[], 0.0, 0.0, false, false;
    }

    method Enter(force: bool, throttled: bool, now: real) returns (d: Decision)
      modifies this
      ensures (Model(), d) == Entered(old(Model()), force, throttled, now)
      ensures d == Wait <==> old(loading)
      ensures d == Load <==> !old(loading) && (force || keys == map[] || expiresAt <= now) && !(throttled && now < old(unknownRefreshAt))
      ensures keys == old(keys) && expiresAt == old(expiresAt) && (d == Load ==> !failed)
    {
      if loading { return Wait; }
      if !force && keys != map[] && now < expiresAt { return Return; }
      if throttled {
        if now < unknownRefreshAt { return Return; }
        unknownRefreshAt := now + UNKNOWN_REFRESH_SECONDS;
      }
      loading := true;
      failed := false;
      d := Load;
    }

    /** One round of the waiting loop: None to wait on, else whether the shared error is raised. */
    method Wake() returns (left: Option<bool>)
      ensures left == Woken(Model())
    {
      if loading { return None; }
      left := Some(failed);
    }

    /**
     Reads a fetched body. The local map is created before the loop over the candidates
     and is not discarded when a candidate is inadmissible.
     */
    method ReadKeys(body: Body) returns (next: Option<Keys>, failure: bool)
      ensures (next, failure) == Read(body)
    {
      if body.Unusable? || |body.candidates| < 1 || MAX_KEYS < |body.candidates| { return None, true; }
      var loaded: Keys := map[];
      var i := 0;
      while i < |body.candidates|
        invariant 0 <= i <= |body.candidates|
        invariant WellFormed(body.candidates[..i]) && loaded == KeySet(body.candidates[..i])
        invariant GoodPrefix(body.candidates, map[]) == i + GoodPrefix(body.candidates[i..], loaded)
      {
        var candidate := body.candidates[i];
        if !Admissible(candidate, loaded) {
          return Some(loaded), true;
        }
        AppendCandidate(body.candidates[..i], candidate);
        assert body.candidates[..i + 1] == body.candidates[..i] + [candidate];
        assert body.candidates[i..][1..] == body.candidates[i + 1..];
        loaded := loaded[candidate.kid.value := candidate.jwk];
        i := i + 1;
      }
      assert body.candidates[..i] == body.candidates;
      return Some(loaded), false;
    }

    method Publish(next: Option<Keys>, failure: bool, now: real)
      modifies this
      ensures Model() == Published(old(Model()), next, failure, now)
    {
      if next.Some? {
        keys := next.value;
        expiresAt := now + JWKS_TTL_SECONDS;
      }
      failed := failure;
      loading := false;
    }
  }

  lemma AppendCandidate(prefix: seq<Candidate>, c: Candidate)
    requires WellFormed(prefix) && Admissible(c, KeySet(prefix))
    ensures WellFormed(prefix + [c]) && KeySet(prefix + [c]) == KeySet(prefix)[c.kid.value := c.jwk]
  {
    KeySetMembers(prefix, c.kid.value);
    assert (prefix + [c])[..|prefix|] == prefix;
  }

  lemma {:induction false} GoodPrefixIsWellFormed(candidates: seq<Candidate>, n: nat)
    requires n <= |candidates| && WellFormed(candidates[..n])
    ensures GoodPrefix(candidates, map[]) >= n
    ensures GoodPrefix(candidates, map[]) == n + GoodPrefix(candidates[n..], KeySet(candidates[..n]))
  {
    if n == 0 {
      assert candidates[0..] == candidates;
    } else {
      var c, before := candidates[n - 1], candidates[..n - 1];
      assert candidates[..n][..n - 1] == before;
      assert WellFormed(before) by {
        assert forall i :: 0 <= i < |before| ==> before[i] == candidates[..n][i];
      }
      GoodPrefixIsWellFormed(candidates, n - 1);
      KeySetMembers(before, c.kid.value);
      assert c == candidates[..n][n - 1] && Admissible(c, map[]);
      forall i | 0 <= i < |before| ensures before[i].kid != c.kid {
        assert before[i] == candidates[..n][i];
      }
      assert candidates[n - 1..][0] == c && candidates[n - 1..][1..] == candidates[n..];
    }
  }

  /** The result of reading a body, without the loop: nothing, or the key set of the longest good prefix. */
  ghost function Read(body: Body): (Option<Keys>, bool) {
    if body.Unusable? || |body.candidates| < 1 || MAX_KEYS < |body.candidates| then (None, true)
    else
      var n := GoodPrefix(body.candidates, map[]);
      PrefixWellFormed(body.candidates);
      (Some(KeySet(body.candidates[..n])), n < |body.candidates|)
  }

  lemma PrefixWellFormed(candidates: seq<Candidate>)
    ensures WellFormed(candidates[..GoodPrefix(candidates, map[])])
  {
    LongestPrefix(candidates, 0);
  }

  lemma {:induction false} LongestPrefix(candidates: seq<Candidate>, n: nat)
    requires n <= |candidates| && WellFormed(candidates[..n])
    ensures WellFormed(candidates[..GoodPrefix(candidates, map[])])
    decreases |candidates| - n
  {
    GoodPrefixIsWellFormed(candidates, n);
    if n < |candidates| && Admissible(candidates[n], KeySet(candidates[..n])) {
      AppendCandidate(candidates[..n], candidates[n]);
      assert candidates[..n + 1] == candidates[..n] + [candidates[n]];
      LongestPrefix(candidates, n + 1);
    } else {
      assert GoodPrefix(candidates[n..], KeySet(candidates[..n])) == 0;
    }
  }

  // ---------------------------------------------------------------------------
  // What a failed fetch leaves behind
  // ---------------------------------------------------------------------------

  predicate SizeAccepted(body: Body) {
    body.KeyList? && 1 <= |body.candidates| <= MAX_KEYS
  }

  lemma GoodPrefixIsAll(candidates: seq<Candidate>)
    ensures GoodPrefix(candidates, map[]) == |candidates| <==> WellFormed(candidates)
  {
    assert candidates[..|candidates|] == candidates;
    PrefixWellFormed(candidates);
    if WellFormed(candidates) {
      GoodPrefixIsWellFormed(candidates, |candidates|);
    }
  }

  /** A fetch succeeds exactly on a well-formed list of accepted size, and then brings its complete key set. */
  lemma SuccessIsComplete(body: Body)
    ensures !Read(body).1 <==> SizeAccepted(body) && WellFormed(body.candidates)
    ensures !Read(body).1 ==> Read(body).0 == Some(KeySet(body.candidates))
  {
    if SizeAccepted(body) {
      GoodPrefixIsAll(body.candidates);
      assert body.candidates[..|body.candidates|] == body.candidates;
    }
  }

  /**
   A failed fetch leaves keys and expiry alone exactly if it failed before the loop over
   the candidates: that is, exactly if the body was no list of accepted size.
   */
  lemma FailedFetchKeepsCacheExactlyBeforeTheLoop(body: Body)
    requires Read(body).1
    ensures (forall c: Cache, now: real ::
               var c' := Published(c, Read(body).0, true, now); c'.keys == c.keys && c'.expiresAt == c.expiresAt)
            <==> !SizeAccepted(body)
  {
    if SizeAccepted(body) {
      var c := Cache(map[], 0.0, 0.0, true, false);
      assert Published(c, Read(body).0, true, 0.0).expiresAt != c.expiresAt;
    }
  }

  /** A list with one good and one bad key: the fetch fails, yet its good half replaces the keys and is good for a minute. */
  lemma FailedFetchCanReplaceKeys(c: Cache, good: Jwk, now: real)
    ensures var body := KeyList([Candidate(true, Some("a"), true, good), Candidate(true, Some("b"), false, good)]);
            && Read(body).1
            && Published(c, Read(body).0, true, now)
               == c.(keys := map["a" := good], expiresAt := now + JWKS_TTL_SECONDS, loading := false, failed := true)
  {
    var x, y := Candidate(true, Some("a"), true, good), Candidate(true, Some("b"), false, good);
    assert [x, y][1..] == [y] && [x, y][..1] == [x];
    assert GoodPrefix([y], map["a" := good]) == 0;
    assert GoodPrefix([x, y], map[]) == 1;
    assert [x][..0] == [];
    assert KeySet([x]) == map["a" := good];
  }

  // ---------------------------------------------------------------------------
  // Every interleaving of threads
  // ---------------------------------------------------------------------------

  type Thread = int

  /** A thread inside the refresh: waiting for the refresh it found, fetching, or about to publish what it fetched. */
  datatype Phase = Waiting(joined: int) | Fetching | Fetched(body: Body)

  /**
   How a thread left: the refresh it joined or ran, how many had ended by then, whether one was loading, and
   whether it raised an error.
   */
  datatype Leave = Leave(t: Thread, joined: int, ended: int, loading: bool, failed: bool)

  /**
   `source` is the list last published from, `publishedAt` when; `starts` are the instants at which throttled refreshes began;
   `started` counts refreshes, `outcomes` says of each that ended whether it failed.
   */
  datatype System = System(cache: Cache, clock: real, threads: map<Thread, Phase>,
                           source: Option<seq<Candidate>>, publishedAt: Option<real>, starts: seq<real>,
                           started: int, outcomes: seq<bool>, leaves: seq<Leave>)

  const INITIAL := System(Cache(map[], 0.0, 0.0, false, false), 0.0, map[], None, None, [], 0, [], [])

  datatype Event =
    | Ticks(span: real)
    | Enters(t: Thread, force: bool, throttled: bool)
    | Wakes(t: Thread)
    | Fetches(t: Thread, body: Body)
    | Publishes(t: Thread)

  ghost predicate Enabled(s: System, e: Event) {
    match e
    case Ticks(span) => 0.0 <= span
    case Enters(t, _, _) => t !in s.threads
    // Notified or not, and however late it gets the lock.
    case Wakes(t) => t in s.threads && s.threads[t].Waiting?
    case Fetches(t, _) => t in s.threads && s.threads[t] == Fetching
    case Publishes(t) => t in s.threads && s.threads[t].Fetched?
  }

  ghost function Step(s: System, e: Event): System
    requires Enabled(s, e)
  {
    match e
    case Ticks(span) => s.(clock := s.clock + span)
    case Enters(t, force, throttled) =>
      var (cache, d) := Entered(s.cache, force, throttled, s.clock);
      s.(cache := cache,
         threads := if d == Return then s.threads else s.threads[t := if d == Wait then Waiting(s.started) else Fetching],
         starts := if d == Load && throttled then s.starts + [s.clock] else s.starts,
         started := if d == Load then s.started + 1 else s.started)
    case Wakes(t) =>
      (match Woken(s.cache)
       case None => s
       case Some(failed) =>
         s.(threads := s.threads - {t},
            leaves := s.leaves + [Leave(t, s.threads[t].joined, |s.outcomes|, s.cache.loading, failed)]))
    case Fetches(t, body) => s.(threads := s.threads[t := Fetched(body)])
    case Publishes(t) =>
      var body := s.threads[t].body;
      var (next, failure) := Read(body);
      var cache := Published(s.cache, next, failure, s.clock);
      s.(cache := cache, threads := s.threads - {t},
         source := if next.Some? then Some(body.candidates) else s.source,
         publishedAt := if next.Some? then Some(s.clock) else s.publishedAt,
         outcomes := s.outcomes + [failure],
         leaves := s.leaves + [Leave(t, s.started, |s.outcomes| + 1, cache.loading, failure)])
  }

  ghost predicate Runs(s: System, es: seq<Event>, s': System)
    decreases |es|
  {
    if es == [] then s == s'
    else Enabled(s, es[0]) && Runs(Step(s, es[0]), es[1..], s')
  }

  ghost function Loaders(s: System): set<Thread> {
    set t | t in s.threads && !s.threads[t].Waiting?
  }

  /** At most one refresh is under way, and the flag says whether one is. */
  ghost predicate SingleFlight(s: System) {
    if s.cache.loading then exists t :: Loaders(s) == {t} else Loaders(s) == {}
  }

  /** The keys are the longest good prefix of one fetched list. */
  ghost predicate KeysFromOneList(s: System) {
    match s.source
    case None => s.cache.keys == map[]
    case Some(list) => SizeAccepted(KeyList(list)) && Some(s.cache.keys) == Read(KeyList(list)).0
  }

  /** Throttled refreshes begin at least five seconds apart. */
  ghost predicate Throttled(s: System) {
    && (forall i :: 0 <= i < |s.starts| - 1 ==> s.starts[i] + UNKNOWN_REFRESH_SECONDS <= s.starts[i + 1])
    && (s.starts != [] ==> s.cache.unknownRefreshAt == s.starts[|s.starts| - 1] + UNKNOWN_REFRESH_SECONDS)
  }

  /** Refreshes that ended, and the one under way, are all that were started; the flag is that of the last that ended. */
  ghost predicate Counted(s: System) {
    && s.started == |s.outcomes| + (if s.cache.loading then 1 else 0)
    && (!s.cache.loading && s.outcomes != [] ==> s.cache.failed == s.outcomes[|s.outcomes| - 1])
    && (forall t :: t in s.threads && s.threads[t].Waiting? ==> 1 <= s.threads[t].joined <= s.started)
  }

  /** It left after its refresh had ended, with the outcome of the last refresh that had, and with nothing loading. */
  ghost predicate LeftInformed(l: Leave, outcomes: seq<bool>) {
    1 <= l.joined <= l.ended <= |outcomes| && l.failed == outcomes[l.ended - 1] && !l.loading
  }

  ghost predicate AllInformed(s: System) {
    forall l :: l in s.leaves ==> LeftInformed(l, s.outcomes)
  }

  /** Keys expire sixty seconds after they were last published; nothing is throttled before the first throttled refresh. */
  ghost predicate Dated(s: System) {
    && 0.0 <= s.clock
    && (s.publishedAt.None? ==> s.cache.keys == map[])
    && (s.publishedAt.Some? ==> s.cache.expiresAt == s.publishedAt.value + 60.0)
    && (s.starts == [] ==> s.cache.unknownRefreshAt == 0.0)
  }

  ghost predicate Inv(s: System) {
    SingleFlight(s) && KeysFromOneList(s) && Throttled(s) && Counted(s) && AllInformed(s) && Dated(s)
  }

  lemma SingleFlightKept(s: System, e: Event)
    requires SingleFlight(s) && Enabled(s, e)
    ensures SingleFlight(Step(s, e))
  {
    var s' := Step(s, e);
    match e
    case Ticks(_) => assert Loaders(s') == Loaders(s);
    case Enters(t, force, throttled) =>
      var d := Entered(s.cache, force, throttled, s.clock).1;
      assert Loaders(s') == if d == Load then Loaders(s) + {t} else Loaders(s);
      assert d == Load ==> Loaders(s') == {t};
    case Wakes(t) =>
      assert t !in Loaders(s);
      assert Loaders(s') == Loaders(s);
    case Fetches(t, _) => assert Loaders(s') == Loaders(s);
    case Publishes(t) =>
      assert t in Loaders(s) && Loaders(s') == Loaders(s) - {t};
  }

  lemma LoaderLoads(s: System, t: Thread)
    requires SingleFlight(s) && t in s.threads && !s.threads[t].Waiting?
    ensures s.cache.loading
  {
    assert t in Loaders(s);
  }

  lemma CountedKept(s: System, e: Event)
    requires SingleFlight(s) && Counted(s) && Enabled(s, e)
    ensures Counted(Step(s, e))
  {
    if e.Publishes? { LoaderLoads(s, e.t); }
  }

  lemma InformedForEver(l: Leave, outcomes: seq<bool>, failure: bool)
    requires LeftInformed(l, outcomes)
    ensures LeftInformed(l, outcomes + [failure])
  {}

  lemma InformedKept(s: System, e: Event)
    requires SingleFlight(s) && Counted(s) && AllInformed(s) && Enabled(s, e)
    ensures AllInformed(Step(s, e))
  {
    if e.Publishes? {
      LoaderLoads(s, e.t);
      forall l | l in s.leaves ensures LeftInformed(l, Step(s, e).outcomes) {
        InformedForEver(l, s.outcomes, Read(s.threads[e.t].body).1);
      }
    }
  }

  lemma StepKeepsInv(s: System, e: Event)
    requires Inv(s) && Enabled(s, e)
    ensures Inv(Step(s, e))
  {
    SingleFlightKept(s, e);
    CountedKept(s, e);
    InformedKept(s, e);
    if e.Publishes? {
      var body := s.threads[e.t].body;
      if Read(body).0.Some? {
        assert body == KeyList(body.candidates);
      }
    }
  }

  lemma {:induction false} RunsKeepInv(s: System, es: seq<Event>, s': System)
    requires Inv(s) && Runs(s, es, s')
    ensures Inv(s')
    decreases |es|
  {
    if es != [] {
      StepKeepsInv(s, es[0]);
      RunsKeepInv(Step(s, es[0]), es[1..], s');
    }
  }

  /** Every thread interleaving: one refresh at a time, keys from one list, throttled refreshes five seconds apart. */
  lemma EveryInterleaving(es: seq<Event>, s: System)
    requires Runs(INITIAL, es, s)
    ensures forall t, u :: t in s.threads && u in s.threads && !s.threads[t].Waiting? && !s.threads[u].Waiting? ==> t == u
    ensures forall t :: t in s.threads && !s.threads[t].Waiting? ==> s.cache.loading
    ensures KeysFromOneList(s) && Throttled(s)
  {
    assert Loaders(INITIAL) == {};
    RunsKeepInv(INITIAL, es, s);
    forall t, u | t in s.threads && u in s.threads && !s.threads[t].Waiting? && !s.threads[u].Waiting?
      ensures t == u && s.cache.loading
    {
      assert t in Loaders(s) && u in Loaders(s);
    }
  }

  /** There are keys, published less than sixty seconds ago. */
  ghost predicate Fresh(s: System) {
    s.cache.keys != map[] && s.publishedAt.Some? && s.clock < s.publishedAt.value + 60.0
  }

  /** A throttled refresh began less than five seconds ago. */
  ghost predicate JustTried(s: System) {
    s.starts != [] && s.clock < s.starts[|s.starts| - 1] + 5.0
  }

  /** The thread begins a refresh, and is the one that fetches. */
  ghost predicate Begins(s: System, s': System, t: Thread) {
    s'.started == s.started + 1 && s'.threads == s.threads[t := Fetching] && s'.cache.loading
  }

  /** The thread waits for the refresh under way. */
  ghost predicate Joins(s: System, s': System, t: Thread) {
    s'.started == s.started && s'.threads == s.threads[t := Waiting(s.started)] && s'.cache == s.cache
  }

  lemma FreshIsNotExpired(s: System)
    requires Dated(s)
    ensures Fresh(s) <==> s.cache.keys != map[] && s.clock < s.cache.expiresAt
  {}

  lemma JustTriedIsThrottled(s: System)
    requires Dated(s) && Throttled(s)
    ensures JustTried(s) <==> s.clock < s.cache.unknownRefreshAt
  {}

  /**
   What an entering thread does, in every interleaving: it joins the refresh under way; else it goes on with the
   keys there are exactly if they are fresh and it does not force, or if it is throttled and one was just
   tried; else it begins a refresh, and its instant counts if it is throttled.
   */
  lemma EntersExactly(es: seq<Event>, s: System, t: Thread, force: bool, throttled: bool)
    requires Runs(INITIAL, es, s) && Enabled(s, Enters(t, force, throttled))
    ensures var s' := Step(s, Enters(t, force, throttled));
            && s'.cache.keys == s.cache.keys && s'.publishedAt == s.publishedAt && s'.clock == s.clock
            && if s.cache.loading then Joins(s, s', t) && s'.starts == s.starts
               else if (Fresh(s) && !force) || (JustTried(s) && throttled) then s' == s
               else Begins(s, s', t) && s'.starts == if throttled then s.starts + [s.clock] else s.starts
  {
    assert Loaders(INITIAL) == {};
    RunsKeepInv(INITIAL, es, s);
    FreshIsNotExpired(s);
    JustTriedIsThrottled(s);
  }

  /** A waiter leaves exactly when it wakes with nothing loading; until then it waits for the refresh it joined. */
  lemma WaiterLeavesExactlyWhenNothingLoads(s: System, t: Thread)
    requires Enabled(s, Wakes(t))
    ensures t !in Step(s, Wakes(t)).threads <==> !s.cache.loading
    ensures s.cache.loading ==> Step(s, Wakes(t)) == s
  {}

  /** What the waiter then leaves with is the outcome of the last refresh that has ended, which is its own or a later one. */
  lemma WokenWithTheOutcome(es: seq<Event>, s: System, t: Thread)
    requires Runs(INITIAL, es, s) && Enabled(s, Wakes(t)) && !s.cache.loading
    ensures 1 <= s.threads[t].joined <= |s.outcomes|
    ensures var failed := s.outcomes[|s.outcomes| - 1];
            Woken(s.cache) == Some(failed)
            && Step(s, Wakes(t)) == s.(threads := s.threads - {t},
                                       leaves := s.leaves + [Leave(t, s.threads[t].joined, |s.outcomes|, false, failed)])
  {
    assert Loaders(INITIAL) == {};
    RunsKeepInv(INITIAL, es, s);
  }

  /** The first candidates of the list, up to the first that is inadmissible or repeats a name. */
  ghost predicate LongestGood(candidates: seq<Candidate>, n: nat) {
    n <= |candidates| && WellFormed(candidates[..n]) && forall m :: n < m <= |candidates| ==> !WellFormed(candidates[..m])
  }

  lemma GoodPrefixIsLongest(candidates: seq<Candidate>)
    ensures LongestGood(candidates, GoodPrefix(candidates, map[]))
  {
    PrefixWellFormed(candidates);
    forall m | GoodPrefix(candidates, map[]) < m <= |candidates| ensures !WellFormed(candidates[..m]) {
      if WellFormed(candidates[..m]) { GoodPrefixIsWellFormed(candidates, m); }
    }
  }

  /**
   How a refresh ends, whatever it fetched and however long it took: it succeeded exactly on a well-formed list of
   1 to 20 keys; from a list of that size, good or not, the longest good part is published as of now; from
   anything else nothing is. Its thread leaves with the outcome, and nothing loads any more.
   */
  lemma RefreshEndsExactly(es: seq<Event>, s: System, t: Thread, body: Body, span: real)
    requires Runs(INITIAL, es, s) && Enabled(s, Fetches(t, body)) && 0.0 <= span
    ensures var s' := Step(Step(Step(s, Fetches(t, body)), Ticks(span)), Publishes(t));
            var sized := body.KeyList? && 1 <= |body.candidates| <= 20;
            var failed := !(sized && WellFormed(body.candidates));
            && !s'.cache.loading && s'.outcomes == s.outcomes + [failed] && t !in s'.threads
            && s'.leaves == s.leaves + [Leave(t, s.started, s.started, false, failed)]
            && if sized
               then s'.publishedAt == Some(s.clock + span)
                    && exists n: nat :: LongestGood(body.candidates, n) && s'.cache.keys == KeySet(body.candidates[..n])
               else s'.publishedAt == s.publishedAt && s'.cache.keys == s.cache.keys
  {
    assert Loaders(INITIAL) == {};
    RunsKeepInv(INITIAL, es, s);
    LoaderLoads(s, t);
    SuccessIsComplete(body);
    if SizeAccepted(body) { GoodPrefixIsLongest(body.candidates); }
  }

  /**
   Every thread that left a refresh, as waiter or as the one that ran it, left with nothing loading, after the
   refresh it joined had ended, and with the outcome of the last refresh that had ended by then.
   */
  lemma WaitersShareTheOutcome(es: seq<Event>, s: System, l: Leave)
    requires Runs(INITIAL, es, s) && l in s.leaves
    ensures !l.loading && 1 <= l.joined <= l.ended <= |s.outcomes| && l.failed == s.outcomes[l.ended - 1]
  {
    assert Loaders(INITIAL) == {};
    RunsKeepInv(INITIAL, es, s);
    assert LeftInformed(l, s.outcomes);
  }

  /** In every interleaving each cached key is a P-256 key that some fetched list gave under its non-empty name. */
  lemma EveryKeyWasFetched(es: seq<Event>, s: System, kid: string)
    requires Runs(INITIAL, es, s) && kid in s.cache.keys
    ensures kid != "" && s.source.Some?
    ensures exists c :: c in s.source.value && c.isObject && c.isP256 && c.kid == Some(kid) && c.jwk == s.cache.keys[kid]
  {
    assert Loaders(INITIAL) == {};
    RunsKeepInv(INITIAL, es, s);
    var list := s.source.value;
    var prefix := list[..GoodPrefix(list, map[])];
    PrefixWellFormed(list);
    KeySetMembers(prefix, kid);
    var i :| 0 <= i < |prefix| && prefix[i].kid == Some(kid);
    assert prefix[i] == list[i] && list[i] in list;
  }

  /** No list of accepted size with an inadmissible candidate was fetched. */
  ghost predicate NoBrokenLists(es: seq<Event>) {
    forall e :: e in es && e.Fetches? && SizeAccepted(e.body) ==> WellFormed(e.body.candidates)
  }

  /** While no such list is fetched, the keys are the complete key set of one successful fetch, or none yet. */
  lemma KeysCompleteWithoutBrokenLists(es: seq<Event>, s: System)
    requires Runs(INITIAL, es, s) && NoBrokenLists(es)
    ensures s.source.Some? ==> WellFormed(s.source.value) && s.cache.keys == KeySet(s.source.value)
  {
    assert Loaders(INITIAL) == {};
    RunsKeepInv(INITIAL, es, s);
    SourcesStayWhole(INITIAL, es, s);
    if s.source.Some? {
      SuccessIsComplete(KeyList(s.source.value));
    }
  }

  ghost predicate Whole(s: System) {
    && (s.source.Some? ==> WellFormed(s.source.value))
    && (forall t :: t in s.threads && s.threads[t].Fetched? && SizeAccepted(s.threads[t].body) ==>
          WellFormed(s.threads[t].body.candidates))
  }

  lemma {:induction false} SourcesStayWhole(s: System, es: seq<Event>, s': System)
    requires Whole(s) && Runs(s, es, s') && NoBrokenLists(es)
    ensures Whole(s')
    decreases |es|
  {
    if es != [] {
      assert es[0] in es;
      var t := Step(s, es[0]);
      assert Whole(t);
      assert forall e :: e in es[1..] ==> e in es;
      SourcesStayWhole(t, es[1..], s');
    }
  }
}
