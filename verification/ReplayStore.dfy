/**
 Replay protection: the evicting in-memory store of packages/sdk/src/replay.ts, the
 acceptance windows of packages/sdk/src/dpop.ts and packages/sdk/src/core.ts, and what
 the two promise together over every history of requests under a clock that does not run
 back (section 11.1 of RFC 9449). Store clocks and expiries are milliseconds; claims and
 windows are seconds.
 */
module ReplayStore {
  import opened Commons

  const DPOP_MAX_AGE_SECONDS := 60
  const DPOP_FUTURE_SKEW_SECONDS := 5
  const CLOCK_TOLERANCE_SECONDS := 5
  const MAX_DATE_MS := 8_640_000_000_000_000

  type Values = map<string, int>

  datatype Outcome = Accepted | Refused | Full

  function Live(values: Values, now: int): Values {
    map k | k in values && now < values[k] :: values[k]
  }

  /** One atomic use of the store: what it answers and what it holds afterwards. */
  function Consumed(values: Values, maxEntries: int, key: string, expiresAt: Option<int>, now: int): (Values, Outcome) {
    var live := Live(values, now);
    if key == "" || expiresAt.None? || expiresAt.value <= now || key in live then (live, Refused)
    else if maxEntries <= |live| then (live, Full)
    else (live[key := expiresAt.value], Accepted)
  }

  class InMemory {
    var values: Values
    const maxEntries: int

    ghost predicate Valid()
      reads this
    {
      1 <= maxEntries && |values| <= maxEntries
    }

    /** None stands for the TypeError that the source throws on a bad capacity. */
    static method Create(maxEntries: int) returns (r: Option<InMemory>)
      ensures r.Some? <==> 1 <= maxEntries
      ensures r.Some? ==> fresh(r.value) && r.value.Valid() && r.value.values == map[] && r.value.maxEntries == maxEntries
    {
      if maxEntries < 1 { return None; }
      var store := new InMemory.Empty(maxEntries);
      r := Some(store);
    }

    constructor Empty(maxEntries: int)
      requires 1 <= maxEntries
      ensures Valid() && values == map[] && this.maxEntries == maxEntries
    {
      values := map[];
      this.maxEntries := maxEntries;
    }

    method Consume(key: string, expiresAt: Option<int>, now: int) returns (o: Outcome)
      requires Valid()
      modifies this`values
      ensures Valid()
      ensures (values, o) == Consumed(old(values), maxEntries, key, expiresAt, now)
      ensures forall k :: k in values ==>
                if o == Accepted && k == key then Some(values[k]) == expiresAt
                else k in old(values) && values[k] == old(values)[k] && now < old(values)[k]
      ensures forall k :: k in old(values) && now < old(values)[k] ==> k in values
      ensures o == Accepted ==> key in values
      ensures o == Refused <==> key == "" || expiresAt == None || expiresAt.value <= now || (key in old(values) && now < old(values)[key])
    {
      Evict(now);
      LiveIsSmaller(old(values), now);
      if key == "" || expiresAt.None? || expiresAt.value <= now { return Refused; }
      if key in values { return Refused; }
      if maxEntries <= |values| { return Full; }
      values := values[key := expiresAt.value];
      o := Accepted;
    }

    method Evict(now: int)
      modifies this`values
      ensures values == Live(old(values), now)
    {
      var rest := values.Keys;
      while rest != {}
        invariant rest <= values.Keys <= old(values).Keys
        invariant forall k :: k in values ==> values[k] == old(values)[k]
        invariant forall k :: k in old(values) && k !in rest ==> (k in values <==> now < old(values)[k])
        decreases |rest|
      {
        var candidate :| candidate in rest;
        if values[candidate] <= now {
          values := values - {candidate};
        }
        rest := rest - {candidate};
      }
    }
  }

  lemma LiveIsSmaller(values: Values, now: int)
    ensures |Live(values, now)| <= |values|
  {
    SubsetIsSmaller(Live(values, now).Keys, values.Keys);
  }

  // ---------------------------------------------------------------------------
  // Credentials, store keys and acceptance windows
  // ---------------------------------------------------------------------------

  /** The one-use credentials of the two endpoints; signatures and the remaining claims are taken as verified. */
  datatype Credential =
    | Dpop(jkt: string, jti: string, iat: int)
    | IdJag(jti: string, iat: int, exp: int)
    | Skill(jti: string, iat: int, exp: int)

  /** A SHA-256 thumbprint in base64url has no colon; a jti is checked to have 1 to 128 characters. */
  predicate WellFormed(c: Credential) {
    1 <= |c.jti| <= 128 && (c.Dpop? ==> ':' !in c.jkt)
  }

  /** The key under which a credential is stored, by kind. */
  function StoreKey(c: Credential): string {
    match c
    case Dpop(jkt, jti, _) => "dpop:" + jkt + ":" + jti
    case IdJag(jti, _, _) => "id-jag:" + jti
    case Skill(jti, _, _) => "skills:" + jti
  }

  function ExpiryMs(c: Credential): int {
    match c
    case Dpop(_, _, iat) => (iat + DPOP_MAX_AGE_SECONDS + 1) * 1000
    case IdJag(_, _, exp) => (exp + 6) * 1000
    case Skill(_, _, exp) => (exp + 6) * 1000
  }

  /** A Date outside its range has no time value. */
  function Expiry(c: Credential): Option<int> {
    if -MAX_DATE_MS <= ExpiryMs(c) <= MAX_DATE_MS then Some(ExpiryMs(c)) else None
  }

  /** The checks of issue and expiry time against the clock, in whole seconds. */
  predicate Acceptable(c: Credential, ms: int) {
    var now := ms / 1000;
    match c
    case Dpop(_, _, iat) => now - DPOP_MAX_AGE_SECONDS <= iat <= now + DPOP_FUTURE_SKEW_SECONDS
    case IdJag(_, iat, exp) => JwtTimely(iat, exp, 300, now) && iat < exp && exp - iat <= 300
    case Skill(_, iat, exp) => JwtTimely(iat, exp, 60, now) && iat < exp && exp - iat <= 60
  }

  /** The expiry, maximum age and future-issue checks of the JWT library with a tolerance of five seconds. */
  predicate JwtTimely(iat: int, exp: int, maxTokenAge: int, now: int) {
    && now - CLOCK_TOLERANCE_SECONDS < exp
    && now - iat - CLOCK_TOLERANCE_SECONDS <= maxTokenAge
    && -CLOCK_TOLERANCE_SECONDS <= now - iat
  }

  /** Two credentials share a store key exactly when they are of one kind and carry the same identifiers. */
  lemma StoreKeysDistinguish(c: Credential, d: Credential)
    requires WellFormed(c) && WellFormed(d)
    ensures StoreKey(c) == StoreKey(d) <==>
              c.jti == d.jti && ((c.Dpop? && d.Dpop? && c.jkt == d.jkt) || (c.IdJag? && d.IdJag?) || (c.Skill? && d.Skill?))
  {
    if StoreKey(c) == StoreKey(d) {
      assert StoreKey(c)[0] == StoreKey(d)[0];
      match c
      case Dpop(jkt, jti, _) =>
        var s, t := StoreKey(c)[5..], StoreKey(d)[5..];
        assert s == jkt + ":" + jti && t == d.jkt + ":" + d.jti;
        ColonSplits(jkt, jti, d.jkt, d.jti);
      case IdJag(jti, _, _) =>
        assert StoreKey(c)[7..] == jti && StoreKey(d)[7..] == d.jti;
      case Skill(jti, _, _) =>
        assert StoreKey(c)[7..] == jti && StoreKey(d)[7..] == d.jti;
    }
  }

  lemma ColonSplits(a: string, b: string, a': string, b': string)
    requires ':' !in a && ':' !in a' && a + ":" + b == a' + ":" + b'
    ensures a == a' && b == b'
  {
    var s := a + ":" + b;
    assert s[|a|] == ':' && s[|a'|] == ':';
    assert (forall i :: 0 <= i < |a| ==> s[i] == a[i]) && (forall i :: 0 <= i < |a'| ==> s[i] == a'[i]);
    assert |a| == |a'|;
    assert s[..|a|] == a && s[..|a|] == a' && s[|a| + 1..] == b && s[|a| + 1..] == b';
  }

  /**
   The windows in milliseconds: a proof passes from five seconds before its issue to just before the sixty-first
   second after it; an assertion with a lifetime of at most five minutes (a skill assertion: one) from five
   seconds before its issue to just before five seconds after its expiry. The age check never decides.
   */
  lemma WindowInMilliseconds(c: Credential, ms: int)
    ensures c.Dpop? ==> (Acceptable(c, ms) <==> (c.iat - 5) * 1000 <= ms < (c.iat + 61) * 1000)
    ensures c.IdJag? ==>
              (Acceptable(c, ms) <==> 0 < c.exp - c.iat <= 300 && (c.iat - 5) * 1000 <= ms < (c.exp + 5) * 1000)
    ensures c.Skill? ==>
              (Acceptable(c, ms) <==> 0 < c.exp - c.iat <= 60 && (c.iat - 5) * 1000 <= ms < (c.exp + 5) * 1000)
  {
    assert 1000 * (ms / 1000) <= ms < 1000 * (ms / 1000) + 1000;
  }

  /** A stored key expires with the window of its proof, and one second after the window of its assertion. */
  lemma ExpiryIsTheWindowsEnd(c: Credential)
    ensures c.Dpop? ==> Acceptable(c, ExpiryMs(c) - 1) && !Acceptable(c, ExpiryMs(c))
    ensures !c.Dpop? && 0 < c.exp - c.iat <= (if c.IdJag? then 300 else 60) ==> Acceptable(c, ExpiryMs(c) - 1001) && !Acceptable(c, ExpiryMs(c) - 1000)
  {
    WindowInMilliseconds(c, ExpiryMs(c));
    WindowInMilliseconds(c, ExpiryMs(c) - 1);
    WindowInMilliseconds(c, ExpiryMs(c) - 1000);
    WindowInMilliseconds(c, ExpiryMs(c) - 1001);
  }

  /** As long as a credential would pass its window, its stored key has not expired. */
  lemma OutlastsWindow(c: Credential, ms: int)
    requires Acceptable(c, ms)
    ensures ms < ExpiryMs(c)
  {}

  /** For a DPoP proof the stored lifetime covers the window exactly from 61 seconds after issue on. */
  lemma DpopNeedsSixtyOneSeconds(iat: int, seconds: int)
    ensures (forall ms :: Acceptable(Dpop("", "", iat), ms) ==> ms < (iat + seconds) * 1000) <==> 61 <= seconds
  {
    var last := iat * 1000 + 60_999;
    assert last / 1000 == iat + 60;
    assert Acceptable(Dpop("", "", iat), last);
    if 61 <= seconds {
      forall ms | Acceptable(Dpop("", "", iat), ms) ensures ms < (iat + seconds) * 1000 {
        OutlastsWindow(Dpop("", "", iat), ms);
      }
    }
  }

  /** For an ID-JAG the five seconds of tolerance are needed; the sixth stored by the source is slack. */
  lemma IdJagNeedsFiveSeconds(exp: int, seconds: int)
    ensures (forall iat, ms :: Acceptable(IdJag("", iat, exp), ms) ==> ms < (exp + seconds) * 1000) <==> 5 <= seconds
  {
    var last := exp * 1000 + 4_999;
    assert last / 1000 == exp + 4;
    assert Acceptable(IdJag("", exp - 1, exp), last);
  }

  // ---------------------------------------------------------------------------
  // Every history of requests
  // ---------------------------------------------------------------------------

  /** The window is checked at one instant, the store is used at a later one: handlers interleave in between. */
  datatype Attempt = Attempt(credential: Credential, checkedAt: int, consumedAt: int)

  function Handle(values: Values, maxEntries: int, a: Attempt): (Values, Outcome) {
    if Acceptable(a.credential, a.checkedAt) then
      Consumed(values, maxEntries, StoreKey(a.credential), Expiry(a.credential), a.consumedAt)
    else (values, Refused)
  }

  /** What the store holds after the first n attempts, in the order in which they reach it. */
  ghost function After(h: seq<Attempt>, maxEntries: int, n: nat): Values
    requires n <= |h|
  {
    if n == 0 then map[] else Handle(After(h, maxEntries, n - 1), maxEntries, h[n - 1]).0
  }

  ghost function Verdict(h: seq<Attempt>, maxEntries: int, i: nat): Outcome
    requires i < |h|
  {
    Handle(After(h, maxEntries, i), maxEntries, h[i]).1
  }

  /** The clock does not run back. */
  ghost predicate Timed(h: seq<Attempt>) {
    && (forall i :: 0 <= i < |h| ==> h[i].checkedAt <= h[i].consumedAt)
    && (forall i, j :: 0 <= i < j < |h| ==> h[i].consumedAt <= h[j].consumedAt)
  }

  /** Attempt i took key k and still holds it at the given time. */
  ghost predicate Holds(h: seq<Attempt>, maxEntries: int, i: nat, k: string, now: int)
    requires i < |h|
  {
    Verdict(h, maxEntries, i) == Accepted && StoreKey(h[i].credential) == k && now < ExpiryMs(h[i].credential)
  }

  lemma LiveTwice(values: Values, earlier: int, now: int)
    requires earlier <= now
    ensures Live(Live(values, earlier), now) == Live(values, now)
  {}

  /** One attempt adds at most its own key; it drops nothing that is still live. */
  lemma LiveAfterAttempt(values: Values, maxEntries: int, a: Attempt, k: string, now: int)
    requires a.consumedAt <= now
    ensures var (after, outcome) := Handle(values, maxEntries, a);
            k in Live(after, now) <==>
              if outcome == Accepted && StoreKey(a.credential) == k then now < ExpiryMs(a.credential)
              else k in Live(values, now)
  {
    LiveTwice(values, a.consumedAt, now);
  }

  /** Some earlier accepted attempt took the key and still holds it. */
  ghost predicate Held(h: seq<Attempt>, maxEntries: int, n: nat, k: string, now: int)
    requires n <= |h|
  {
    exists i: nat :: i < n && Holds(h, maxEntries, i, k, now)
  }

  lemma OneMoreHolder(h: seq<Attempt>, maxEntries: int, n: nat, k: string, now: int)
    requires n < |h|
    ensures Held(h, maxEntries, n + 1, k, now) <==> Held(h, maxEntries, n, k, now) || Holds(h, maxEntries, n, k, now)
  {}

  lemma OneMoreAttempt(h: seq<Attempt>, maxEntries: int, n: nat, k: string, now: int)
    requires n < |h| && h[n].consumedAt <= now
    requires k in Live(After(h, maxEntries, n), now) <==> Held(h, maxEntries, n, k, now)
    requires Verdict(h, maxEntries, n) == Accepted && StoreKey(h[n].credential) == k ==> !Held(h, maxEntries, n, k, now)
    ensures k in Live(After(h, maxEntries, n + 1), now) <==> Held(h, maxEntries, n + 1, k, now)
  {
    LiveAfterAttempt(After(h, maxEntries, n), maxEntries, h[n], k, now);
    OneMoreHolder(h, maxEntries, n, k, now);
  }

  /** The live keys are exactly those taken by an earlier accepted attempt whose expiry is still ahead: nothing else, nothing lost. */
  lemma {:induction false} LiveKeysAreHeldKeys(h: seq<Attempt>, maxEntries: int, n: nat, k: string, now: int)
    requires Timed(h) && n <= |h| && (n == 0 || h[n - 1].consumedAt <= now)
    ensures k in Live(After(h, maxEntries, n), now) <==> Held(h, maxEntries, n, k, now)
    decreases n, 0
  {
    if n != 0 {
      LiveKeysAreHeldKeys(h, maxEntries, n - 1, k, now);
      if Verdict(h, maxEntries, n - 1) == Accepted && StoreKey(h[n - 1].credential) == k {
        NotHeldTwice(h, maxEntries, n - 1, k, now);
      }
      OneMoreAttempt(h, maxEntries, n - 1, k, now);
    }
  }

  /** A key taken by attempt n was not held by anyone before, at that time or later. */
  lemma NotHeldTwice(h: seq<Attempt>, maxEntries: int, n: nat, k: string, now: int)
    requires Timed(h) && n < |h| && h[n].consumedAt <= now
    requires Verdict(h, maxEntries, n) == Accepted && StoreKey(h[n].credential) == k
    ensures forall i: nat :: i < n ==> !Holds(h, maxEntries, i, k, now)
    decreases n, 1
  {
    LiveKeysAreHeldKeys(h, maxEntries, n, k, h[n].consumedAt);
    forall i: nat | i < n ensures !Holds(h, maxEntries, i, k, now) {
      assert !Holds(h, maxEntries, i, k, h[n].consumedAt);
    }
  }

  /** The keys that earlier accepted attempts still hold. */
  ghost function HeldKeys(h: seq<Attempt>, maxEntries: int, n: nat, now: int): set<string>
    requires n <= |h|
  {
    set j: nat | j < n && Holds(h, maxEntries, j, StoreKey(h[j].credential), now) :: StoreKey(h[j].credential)
  }

  lemma HeldKeysAreLive(h: seq<Attempt>, maxEntries: int, n: nat, now: int)
    requires Timed(h) && n <= |h| && (n == 0 || h[n - 1].consumedAt <= now)
    ensures Live(After(h, maxEntries, n), now).Keys == HeldKeys(h, maxEntries, n, now)
  {
    var live := Live(After(h, maxEntries, n), now);
    forall k ensures k in live <==> k in HeldKeys(h, maxEntries, n, now) {
      LiveKeysAreHeldKeys(h, maxEntries, n, k, now);
    }
  }

  /** The verdict on every attempt, in terms of the earlier verdicts alone. */
  lemma VerdictIsDecidedByHistory(h: seq<Attempt>, maxEntries: int, i: nat)
    requires Timed(h) && i < |h| && WellFormed(h[i].credential)
    ensures var a := h[i];
            var storable := -8_640_000_000_000_000 <= ExpiryMs(a.credential) <= 8_640_000_000_000_000;
            var timely := Acceptable(a.credential, a.checkedAt) && storable && a.consumedAt < ExpiryMs(a.credential);
            var held := HeldKeys(h, maxEntries, i, a.consumedAt);
            Verdict(h, maxEntries, i)
              == if !timely || StoreKey(a.credential) in held then Refused else if |held| < maxEntries then Accepted else Full
  {
    var live := Live(After(h, maxEntries, i), h[i].consumedAt);
    HeldKeysAreLive(h, maxEntries, i, h[i].consumedAt);
    assert |live| == |live.Keys|;
  }

  /** No credential is accepted twice, whatever other requests come in between. */
  lemma AcceptedAtMostOnce(h: seq<Attempt>, maxEntries: int, i: nat, j: nat)
    requires Timed(h) && i < j < |h| && h[i].credential == h[j].credential
    ensures !(Verdict(h, maxEntries, i) == Accepted && Verdict(h, maxEntries, j) == Accepted)
  {
    if Verdict(h, maxEntries, i) == Accepted && Verdict(h, maxEntries, j) == Accepted {
      NotHeldTwice(h, maxEntries, j, StoreKey(h[j].credential), h[j].consumedAt);
      assert Holds(h, maxEntries, i, StoreKey(h[j].credential), h[j].consumedAt);
    }
  }

  /** An identifier is accepted again only once the credential that first carried it would be refused for ever. */
  lemma IdentifierNotReusedInItsWindow(h: seq<Attempt>, maxEntries: int, i: nat, j: nat, later: int)
    requires Timed(h) && i < j < |h| && StoreKey(h[i].credential) == StoreKey(h[j].credential)
    requires Verdict(h, maxEntries, i) == Accepted && Verdict(h, maxEntries, j) == Accepted
    requires h[j].consumedAt <= later
    ensures !Acceptable(h[i].credential, later)
  {
    NotHeldTwice(h, maxEntries, j, StoreKey(h[j].credential), h[j].consumedAt);
    assert !Holds(h, maxEntries, i, StoreKey(h[j].credential), h[j].consumedAt);
    if Acceptable(h[i].credential, later) {
      OutlastsWindow(h[i].credential, later);
    }
  }

  lemma {:induction false} NeverOverCapacity(h: seq<Attempt>, maxEntries: int, n: nat)
    requires 1 <= maxEntries && n <= |h|
    ensures |After(h, maxEntries, n)| <= maxEntries
  {
    if n != 0 {
      NeverOverCapacity(h, maxEntries, n - 1);
      LiveIsSmaller(After(h, maxEntries, n - 1), h[n - 1].consumedAt);
    }
  }

  /** With a clock that runs back the promise fails: eviction forgets a key that becomes acceptable again. */
  lemma ClockMustNotRunBack()
    ensures var proof, other := Dpop("k", "a", 0), Dpop("k", "b", 61);
            var h := [Attempt(proof, 0, 0), Attempt(other, 61_000, 61_000), Attempt(proof, 1000, 1000)];
            Verdict(h, 10, 0) == Accepted && Verdict(h, 10, 2) == Accepted
  {
    var proof, other := Dpop("k", "a", 0), Dpop("k", "b", 61);
    var h := [Attempt(proof, 0, 0), Attempt(other, 61_000, 61_000), Attempt(proof, 1000, 1000)];
    StoreKeysDistinguish(proof, other);
    assert After(h, 10, 0) == map[] && Live(map[], 0) == map[];
    var first := After(h, 10, 1);
    assert first == Consumed(map[], 10, StoreKey(proof), Some(61_000), 0).0;
    assert |Live(map[], 0)| == 0;
    assert first == map[StoreKey(proof) := 61_000];
    assert Live(first, 61_000) == map[];
    var second := After(h, 10, 2);
    assert second == map[StoreKey(other) := 122_000];
    assert Live(second, 1000) == second;
  }

  // ---------------------------------------------------------------------------
  // The token endpoint
  // ---------------------------------------------------------------------------

  datatype TokenResult = Granted | BadAssertion | BadProof | ReplayedAssertion | StoreUnavailable

  /**
   The order of the token endpoint: assertion window, proof window, proof key against the key the assertion
   is bound to (its cnf.jkt), proof consumed, then assertion consumed. The four instants are the clock
   readings of the four steps.
   */
  method Token(store: InMemory, jag: Credential, boundKey: string, proof: Credential, t0: int, t1: int, t2: int, t3: int)
      returns (r: TokenResult)
    requires store.Valid() && jag.IdJag? && proof.Dpop?
    modifies store`values
    ensures store.Valid()
    ensures var (v1, o1) := Handle(old(store.values), store.maxEntries, Attempt(proof, t1, t2));
            var (v2, o2) := Handle(v1, store.maxEntries, Attempt(jag, t0, t3));
            var proper := Acceptable(jag, t0) && Acceptable(proof, t1) && proof.jkt == boundKey;
            // A refused proof leaves the assertion unused; a refused assertion still uses up the proof.
            && (r == BadAssertion <==> !Acceptable(jag, t0))
            && (r == BadProof <==> Acceptable(jag, t0) && (!proper || o1 == Refused))
            && (r == ReplayedAssertion <==> proper && o1 == Accepted && o2 == Refused)
            && (r == Granted <==> proper && o1 == Accepted && o2 == Accepted)
            && store.values == match r
                               case BadAssertion => old(store.values)
                               case BadProof => if proper then v1 else old(store.values)
                               case StoreUnavailable => if o1 == Full then v1 else v2
                               case _ => v2
  {
    if !Acceptable(jag, t0) { return BadAssertion; }
    if !Acceptable(proof, t1) { return BadProof; }
    if proof.jkt != boundKey { return BadProof; }
    var first := store.Consume(StoreKey(proof), Expiry(proof), t2);
    if first == Full { return StoreUnavailable; }
    if first == Refused { return BadProof; }
    var second := store.Consume(StoreKey(jag), Expiry(jag), t3);
    if second == Full { return StoreUnavailable; }
    r := if second == Refused then ReplayedAssertion else Granted;
  }
}
