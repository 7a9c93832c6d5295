/**
 The credential protocol of the command line (apps/cli/src/services/session-manager.ts,
 apps/cli/src/oauth/session.ts, apps/cli/src/services/auth.ts): any number of processes
 share one keychain entry and one lock while the server rotates refresh tokens. A state
 holds the entry, the section of the program that the lock holder has reached, the last
 access session handed to each process, and the server's books. The lock is taken to give
 mutual exclusion and a single keychain write to be atomic; every read, network answer,
 write, failure and crash is a step of its own.
 */
module Credentials {
  import opened Commons

  type Process = int
  type Key = int
  /** A token exchange; it issues one refresh token and one access token, both named by it. */
  type Exchange = int

  datatype Session = Session(exchange: Exchange, subject: string, expiresAt: int)

  /** The keychain entry: device key, refresh token, profile subject and access session. */
  datatype Entry = Entry(key: Key, refresh: Exchange, identity: Option<string>, session: Option<Session>)

  /** What the server knows of an exchange: the subject it speaks for and the device key it is bound to. */
  datatype Grant = Grant(subject: string, key: Key)

  datatype Section =
    | Fetching
    | Presenting(c: Entry)
    | Rotated(c: Entry, e: Exchange)
    | Kept(c: Entry, e: Exchange)
    | Validated(c: Entry, e: Exchange, expiresAt: int)
    | LoggingIn
    | Replacing(c: Entry)
    | Profiling(subject: string)
    | Naming(c: Entry, subject: string)
    | LoggingOut

  datatype Server = Server(grants: map<Exchange, Grant>, next: Exchange,
                           presented: set<Exchange>, spent: set<Exchange>, refused: set<Exchange>, lost: set<Exchange>)

  datatype State = State(store: Option<Entry>, holder: Option<(Process, Section)>, handed: map<Process, Entry>, server: Server)

  const INITIAL := State(None, None, map[], Server(map[], 0, {}, {}, {}, {}))

  /** A session is reused while it has more than a minute to live. */
  predicate Usable(c: Entry, now: int) {
    c.session.Some? && now + 60 < c.session.value.expiresAt
  }

  /** The entry after a rotation: same key and profile, the new token, no session. */
  function RotatedEntry(c: Entry, e: Exchange): Entry {
    Entry(c.key, e, c.identity, None)
  }

  datatype Action =
    | ReadUnlocked(p: Process, now: int)
    | EnterFetch(p: Process)
    | EnterLogin(p: Process)
    | EnterProfile(p: Process)
    | EnterLogout(p: Process)
    | FetchLocked(now: int)
    | PresentRefused
    | PresentLost
    | PresentAnswered
    | KeepRotation(ok: bool)
    | Validate(ok: bool, expiresAt: int)
    | StoreSession(ok: bool)
    | LoginAnswered(subject: string, key: Key, expiresAt: int)
    | LoginFailed
    | DeleteItem
    | InsertItem(ok: bool)
    | ReadProfile(same: bool)
    | WriteProfile(ok: bool)
    | ClearItem(ok: bool)
    | Crash

  ghost predicate Enabled(s: State, a: Action) {
    match a
    case ReadUnlocked(p, now) => s.store.Some? && Usable(s.store.value, now)
    case EnterFetch(p) => s.holder == None
    case EnterLogin(p) => s.holder == None
    case EnterProfile(p) => s.holder == None && p in s.handed && s.handed[p].session.Some?
    case EnterLogout(p) => s.holder == None
    case FetchLocked(_) => s.holder.Some? && s.holder.value.1.Fetching?
    case PresentRefused => s.holder.Some? && s.holder.value.1.Presenting?
    // The server rotates only a token that it issued and has not rotated before.
    case PresentLost => s.holder.Some? && s.holder.value.1.Presenting? && Rotatable(s.server, s.holder.value.1.c.refresh)
    case PresentAnswered => s.holder.Some? && s.holder.value.1.Presenting? && Rotatable(s.server, s.holder.value.1.c.refresh)
    case KeepRotation(_) => s.holder.Some? && s.holder.value.1.Rotated?
    case Validate(_, _) => s.holder.Some? && s.holder.value.1.Kept?
    case StoreSession(_) => s.holder.Some? && s.holder.value.1.Validated? && s.holder.value.1.e in s.server.grants
    case LoginAnswered(_, _, _) => s.holder.Some? && s.holder.value.1.LoggingIn?
    case LoginFailed => s.holder.Some? && s.holder.value.1.LoggingIn?
    case DeleteItem => s.holder.Some? && s.holder.value.1.Replacing?
    case InsertItem(_) => s.holder.Some? && s.holder.value.1.Replacing?
    case ReadProfile(_) => s.holder.Some? && s.holder.value.1.Profiling?
    case WriteProfile(_) => s.holder.Some? && s.holder.value.1.Naming?
    case ClearItem(_) => s.holder.Some? && s.holder.value.1.LoggingOut?
    case Crash => s.holder.Some?
  }

  ghost predicate Rotatable(server: Server, token: Exchange) {
    token in server.grants && token !in server.spent
  }

  /** A rotation: the presented token is spent, and its successor speaks for the same subject and key. */
  ghost function Rotate(server: Server, token: Exchange): Server
    requires token in server.grants
  {
    server.(grants := server.grants[server.next := server.grants[token]], next := server.next + 1,
            presented := server.presented + {token}, spent := server.spent + {token})
  }

  ghost function Lose(server: Server, token: Exchange): Server {
    server.(lost := server.lost + {token})
  }

  ghost function Leave(s: State): State {
    s.(holder := None)
  }

  ghost function Go(s: State, to: Section): State
    requires s.holder.Some?
  {
    s.(holder := Some((s.holder.value.0, to)))
  }

  ghost function Step(s: State, a: Action): State
    requires Enabled(s, a)
  {
    match a
    case ReadUnlocked(p, now) => s.(handed := s.handed[p := s.store.value])
    case EnterFetch(p) => s.(holder := Some((p, Fetching)))
    case EnterLogin(p) => s.(holder := Some((p, LoggingIn)))
    case EnterProfile(p) => s.(holder := Some((p, Profiling(s.handed[p].session.value.subject))))
    case EnterLogout(p) => s.(holder := Some((p, LoggingOut)))
    case FetchLocked(now) =>
      if s.store == None then Leave(s)  // "You are not logged in"
      else if Usable(s.store.value, now) then Leave(s).(handed := s.handed[s.holder.value.0 := s.store.value])
      else Go(s, Presenting(s.store.value))
    case PresentRefused =>
      var token := s.holder.value.1.c.refresh;
      Leave(s).(server := s.server.(presented := s.server.presented + {token}, refused := s.server.refused + {token}))
    case PresentLost =>
      var token := s.holder.value.1.c.refresh;
      Leave(s).(server := Lose(Rotate(s.server, token), token))
    case PresentAnswered =>
      var c := s.holder.value.1.c;
      Go(s, Rotated(c, s.server.next)).(server := Rotate(s.server, c.refresh))
    case KeepRotation(ok) =>
      var at := s.holder.value.1;
      if ok then Go(s, Kept(at.c, at.e)).(store := Some(RotatedEntry(at.c, at.e)))
      else Leave(s).(server := Lose(s.server, at.c.refresh))
    case Validate(ok, expiresAt) =>
      var at := s.holder.value.1;
      if ok then Go(s, Validated(at.c, at.e, expiresAt)) else Leave(s)
    case StoreSession(ok) =>
      var at := s.holder.value.1;
      var session := Session(at.e, s.server.grants[at.e].subject, at.expiresAt);
      var entry := RotatedEntry(at.c, at.e).(session := Some(session));
      if ok then Leave(s).(store := Some(entry), handed := s.handed[s.holder.value.0 := entry]) else Leave(s)
    case LoginAnswered(subject, key, expiresAt) =>
      var e := s.server.next;
      Go(s, Replacing(Entry(key, e, None, Some(Session(e, subject, expiresAt))))).(
        server := s.server.(grants := s.server.grants[e := Grant(subject, key)], next := e + 1))
    case LoginFailed => Leave(s)
    case DeleteItem => s.(store := None)
    case InsertItem(ok) => if ok then Leave(s).(store := Some(s.holder.value.1.c)) else Leave(s)
    case ReadProfile(same) =>
      var subject := s.holder.value.1.subject;
      if s.store == None || s.store.value.session == None || s.store.value.session.value.subject != subject
         || (same && s.store.value.identity == Some(subject))
      then Leave(s)
      else Go(s, Naming(s.store.value, subject))
    case WriteProfile(ok) =>
      var at := s.holder.value.1;
      if ok then Leave(s).(store := Some(at.c.(identity := Some(at.subject)))) else Leave(s)
    case ClearItem(ok) => if ok then Leave(s).(store := None) else Leave(s)
    case Crash =>
      var at := s.holder.value.1;
      if at.Rotated? then Leave(s).(server := Lose(s.server, at.c.refresh)) else Leave(s)
  }

  ghost predicate Runs(s: State, actions: seq<Action>, s': State)
    decreases |actions|
  {
    if actions == [] then s == s'
    else Enabled(s, actions[0]) && Runs(Step(s, actions[0]), actions[1..], s')
  }

  // ---------------------------------------------------------------------------
  // The invariant
  // ---------------------------------------------------------------------------

  /** Everything in an entry stems from the exchange of its refresh token. */
  ghost predicate Coherent(server: Server, c: Entry) {
    && c.refresh in server.grants
    && server.grants[c.refresh].key == c.key
    && (c.session.Some? ==>
          c.session.value.exchange == c.refresh && c.session.value.subject == server.grants[c.refresh].subject)
    && (c.identity.Some? ==> c.identity.value == server.grants[c.refresh].subject)
  }

  ghost predicate Books(server: Server) {
    && (forall e :: e in server.grants ==> e < server.next)
    && server.lost <= server.spent <= server.presented <= server.grants.Keys
    && server.refused <= server.presented <= server.spent + server.refused
  }

  /** Under the lock nothing else writes: what a section has read or written is still what is stored. */
  ghost predicate SectionHolds(store: Option<Entry>, server: Server, at: Section) {
    match at
    case Presenting(c) => store == Some(c)
    case Rotated(c, e) =>
      && store == Some(c) && c.refresh in server.grants && c.refresh in server.spent && c.refresh !in server.lost
      && e in server.grants && server.grants[e] == server.grants[c.refresh] && e !in server.presented
    case Kept(c, e) => store == Some(RotatedEntry(c, e))
    case Validated(c, e, _) => store == Some(RotatedEntry(c, e))
    case Replacing(c) => Coherent(server, c) && c.refresh !in server.presented
    case Naming(c, subject) => store == Some(c) && c.session.Some? && c.session.value.subject == subject
    case _ => true
  }

  /** The stored token is spent only if its successor was lost or is just being written. */
  ghost predicate SpentOnlyIfLost(s: State) {
    s.store.Some? && s.store.value.refresh in s.server.spent ==>
      s.store.value.refresh in s.server.lost || (s.holder.Some? && s.holder.value.1.Rotated?)
  }

  ghost predicate Inv(s: State) {
    && Books(s.server)
    && (s.store.Some? ==> Coherent(s.server, s.store.value))
    && (s.holder.Some? ==> SectionHolds(s.store, s.server, s.holder.value.1))
    && SpentOnlyIfLost(s)
    && (forall p :: p in s.handed ==> Coherent(s.server, s.handed[p]) && s.handed[p].session.Some?)
  }

  lemma GrantsGrow(server: Server, server': Server, c: Entry)
    requires Coherent(server, c)
    requires server.grants.Keys <= server'.grants.Keys
    requires forall e :: e in server.grants ==> server'.grants[e] == server.grants[e]
    ensures Coherent(server', c)
  {}

  lemma RotateKeepsBooks(server: Server, token: Exchange)
    requires Books(server) && token in server.grants
    ensures Books(Rotate(server, token)) && Books(Lose(Rotate(server, token), token))
    ensures forall c :: Coherent(server, c) ==> Coherent(Rotate(server, token), c)
    ensures server.next !in Rotate(server, token).presented
  {}

  lemma LoginKeepsInv(s: State, a: Action)
    requires Inv(s) && Enabled(s, a) && a.LoginAnswered?
    ensures Inv(Step(s, a))
  {
    var t := Step(s, a);
    forall p | p in t.handed ensures Coherent(t.server, t.handed[p]) && t.handed[p].session.Some? {
      GrantsGrow(s.server, t.server, s.handed[p]);
    }
  }

  lemma PresentKeepsInv(s: State, a: Action)
    requires Inv(s) && Enabled(s, a) && (a.PresentAnswered? || a.PresentLost?)
    ensures Inv(Step(s, a))
  {
    RotateKeepsBooks(s.server, s.holder.value.1.c.refresh);
  }

  lemma StepKeepsInv(s: State, a: Action)
    requires Inv(s) && Enabled(s, a)
    ensures Inv(Step(s, a))
  {
    match a
    case LoginAnswered(_, _, _) => LoginKeepsInv(s, a);
    case PresentAnswered => PresentKeepsInv(s, a);
    case PresentLost => PresentKeepsInv(s, a);
    case _ =>
  }

  lemma {:induction false} RunsKeepInv(s: State, actions: seq<Action>, s': State)
    requires Inv(s) && Runs(s, actions, s')
    ensures Inv(s')
    decreases |actions|
  {
    if actions != [] {
      StepKeepsInv(s, actions[0]);
      RunsKeepInv(Step(s, actions[0]), actions[1..], s');
    }
  }

  // ---------------------------------------------------------------------------
  // What every interleaving keeps
  // ---------------------------------------------------------------------------

  /**
   In every reachable state the stored session comes from the exchange of the stored
   refresh token, is bound to the stored device key and, like the stored profile, names
   the subject of that exchange; the same holds of every session handed to a process.
   */
  lemma EntryIsFromOneExchange(actions: seq<Action>, s: State)
    requires Runs(INITIAL, actions, s)
    ensures s.store.Some? && s.store.value.session.Some? ==>
              && s.store.value.session.value.exchange == s.store.value.refresh
              && s.store.value.refresh in s.server.grants
              && s.server.grants[s.store.value.refresh] == Grant(s.store.value.session.value.subject, s.store.value.key)
              && (s.store.value.identity.Some? ==> s.store.value.identity.value == s.store.value.session.value.subject)
    ensures forall p :: p in s.handed ==>
              && s.handed[p].session.Some? && s.handed[p].session.value.exchange in s.server.grants
              && s.server.grants[s.handed[p].session.value.exchange]
                 == Grant(s.handed[p].session.value.subject, s.handed[p].key)
  {
    RunsKeepInv(INITIAL, actions, s);
  }

  /**
   A refresh token about to be presented has been presented before exactly if an earlier
   presentation was refused without a rotation, or the token that replaced it never
   reached the store (the answer was lost or malformed, the write failed, or the process
   died in between).
   */
  lemma PresentedAgainExactlyAfterRefusalOrLoss(actions: seq<Action>, s: State)
    requires Runs(INITIAL, actions, s) && s.holder.Some? && s.holder.value.1.Presenting?
    ensures var token := s.holder.value.1.c.refresh;
            && (token in s.server.presented <==> token in s.server.refused || token in s.server.lost)
            && (token in s.server.spent <==> token in s.server.lost)
  {
    RunsKeepInv(INITIAL, actions, s);
  }

  /** So if every rotated token reaches the store, no process ever presents a token that the server has rotated away. */
  lemma NoSpentTokenIsPresented(actions: seq<Action>, s: State)
    requires Runs(INITIAL, actions, s) && s.holder.Some? && s.holder.value.1.Presenting?
    requires s.server.lost == {}
    ensures Rotatable(s.server, s.holder.value.1.c.refresh)
  {
    RunsKeepInv(INITIAL, actions, s);
  }

  /** Without that proviso a token can be presented again: refused once, it is offered once more. */
  lemma RefusedTokenIsPresentedAgain() returns (actions: seq<Action>, s: State)
    ensures Runs(INITIAL, actions, s) && s.holder.Some? && s.holder.value.1.Presenting?
    ensures s.holder.value.1.c.refresh in s.server.presented && s.server.lost == {}
  {
    var s1 := Step(INITIAL, EnterLogin(1));
    var s2 := Step(s1, LoginAnswered("alice", 7, 100));
    var s3 := Step(s2, InsertItem(true));
    var s4 := Step(s3, EnterFetch(1));
    var s5 := Step(s4, FetchLocked(200));
    var s6 := Step(s5, PresentRefused);
    var s7 := Step(s6, EnterFetch(2));
    s := Step(s7, FetchLocked(300));
    var a7 := [FetchLocked(300)];
    assert Runs(s7, a7, s) by { assert a7[1..] == []; }
    var a6 := [EnterFetch(2)] + a7;
    assert Runs(s6, a6, s) by { assert a6[1..] == a7; }
    var a5 := [PresentRefused] + a6;
    assert Runs(s5, a5, s) by { assert a5[1..] == a6; }
    var a4 := [FetchLocked(200)] + a5;
    assert Runs(s4, a4, s) by { assert a4[1..] == a5; }
    var a3 := [EnterFetch(1)] + a4;
    assert Runs(s3, a3, s) by { assert a3[1..] == a4; }
    var a2 := [InsertItem(true)] + a3;
    assert Runs(s2, a2, s) by { assert a2[1..] == a3; }
    var a1 := [LoginAnswered("alice", 7, 100)] + a2;
    assert Runs(s1, a1, s) by { assert a1[1..] == a2; }
    actions := [EnterLogin(1)] + a1;
    assert actions[1..] == a1;
  }

  // ---------------------------------------------------------------------------
  // What is handed out, and what each write changes
  // ---------------------------------------------------------------------------

  /** The stored session is handed out while it has more than sixty seconds left; otherwise the token is presented. */
  lemma HandedOutExactly(s: State, p: Process, now: int)
    ensures Enabled(s, ReadUnlocked(p, now)) <==>
              s.store.Some? && s.store.value.session.Some? && s.store.value.session.value.expiresAt - now > 60
    ensures Enabled(s, ReadUnlocked(p, now)) ==> Step(s, ReadUnlocked(p, now)) == s.(handed := s.handed[p := s.store.value])
    ensures s.holder == Some((p, Fetching)) ==>
              Step(s, FetchLocked(now))
              == if s.store == None then s.(holder := None)
                 else if Enabled(s, ReadUnlocked(p, now)) then s.(holder := None, handed := s.handed[p := s.store.value])
                 else s.(holder := Some((p, Presenting(s.store.value))))
  {}

  /** What login, logout and the profile command write. */
  ghost predicate Rewrites(a: Action) {
    a.DeleteItem? || a.InsertItem? || a.ClearItem? || a.WriteProfile?
  }

  ghost predicate SameOwner(before: Option<Entry>, after: Option<Entry>) {
    match before
    case None => after == None
    case Some(c) => after.Some? && after.value.key == c.key && after.value.identity == c.identity
  }

  /**
   A refresh writes twice: the rotated token without a session, then the session of that token. Nothing
   else changes what is stored, and neither write touches the device key or the profile.
   */
  lemma RefreshWritesExactly(s: State, a: Action)
    requires Inv(s) && Enabled(s, a) && !Rewrites(a)
    ensures SameOwner(s.store, Step(s, a).store)
    ensures a == KeepRotation(true) ==>
              var c := Step(s, a).store; c.Some? && c.value.refresh == s.holder.value.1.e && c.value.session == None
    ensures a == StoreSession(true) ==>
              var c, at := Step(s, a).store, s.holder.value.1;
              && c.Some? && c.value.refresh == at.e
              && c.value.session == Some(Session(at.e, s.server.grants[at.e].subject, at.expiresAt))
              && Step(s, a).handed == s.handed[s.holder.value.0 := c.value]
    ensures a != KeepRotation(true) && a != StoreSession(true) ==> Step(s, a).store == s.store
  {}

  /**
   What the server's books say of a presented token: it was presented in any case; refused, it is not spent; its
   rotation spends it and issues the next exchange for the same subject and key; a lost answer also loses that one.
   */
  lemma PresentsExactly(s: State, a: Action)
    requires Inv(s) && Enabled(s, a) && (a.PresentRefused? || a.PresentLost? || a.PresentAnswered?)
    ensures var (p, at), t := s.holder.value, Step(s, a); var token := at.c.refresh;
            && t.server.presented == s.server.presented + {token}
            && t.server.refused == (if a.PresentRefused? then s.server.refused + {token} else s.server.refused)
            && t.server.spent == (if a.PresentRefused? then s.server.spent else s.server.spent + {token})
            && t.server.lost == (if a.PresentLost? then s.server.lost + {token} else s.server.lost)
            && (a.PresentAnswered? ==>
                  && t.holder.Some? && t.holder.value.1.Rotated? && t.holder.value.0 == p && t.holder.value.1.c == at.c
                  && t.holder.value.1.e !in s.server.grants && t.holder.value.1.e in t.server.grants
                  && t.server.grants[t.holder.value.1.e] == s.server.grants[token])
  {}

  /** Whoever wants the lock gets it when it is free, and nothing else happens. */
  lemma EntersExactly(s: State, p: Process)
    ensures Enabled(s, EnterFetch(p)) <==> s.holder == None
    ensures s.holder == None ==>
              && Step(s, EnterFetch(p)) == s.(holder := Some((p, Fetching)))
              && Step(s, EnterLogin(p)) == s.(holder := Some((p, LoggingIn)))
              && Step(s, EnterLogout(p)) == s.(holder := Some((p, LoggingOut)))
    ensures s.holder == None && p in s.handed && s.handed[p].session.Some? ==>
              Step(s, EnterProfile(p)) == s.(holder := Some((p, Profiling(s.handed[p].session.value.subject))))
  {}

  /** A failing step ends the section with nothing written or handed out; a rotation that is kept and valid goes on. */
  lemma FailuresEndTheSection(s: State, a: Action)
    requires Enabled(s, a)
    ensures a.PresentRefused? || a.PresentLost? || a.LoginFailed? || a.Crash? || a == KeepRotation(false) || a == StoreSession(false)
            || (a.Validate? && !a.ok) ==>
              var t := Step(s, a); t.holder == None && t.store == s.store && t.handed == s.handed
    ensures a == KeepRotation(true) || (a.Validate? && a.ok) ==>
              var (p, at), to := s.holder.value, Step(s, a).holder;
              to == Some((p, if a.Validate? then Validated(at.c, at.e, a.expiresAt) else Kept(at.c, at.e)))
  {}

  /** So over any number of refreshes, in whatever interleaving, the device key and the profile stay. */
  lemma {:induction false} RefreshesKeepKeyAndProfile(s: State, actions: seq<Action>, s': State)
    requires Inv(s) && Runs(s, actions, s') && forall a :: a in actions ==> !Rewrites(a)
    ensures SameOwner(s.store, s'.store)
    decreases |actions|
  {
    if actions != [] {
      assert forall a :: a in actions[1..] ==> a in actions;
      RefreshWritesExactly(s, actions[0]);
      StepKeepsInv(s, actions[0]);
      RefreshesKeepKeyAndProfile(Step(s, actions[0]), actions[1..], s');
    }
  }

  /** A login replaces the whole entry by its own token, key and session, without a profile; a failed insert leaves none. */
  lemma LoginReplacesTheEntry(s: State, subject: string, key: Key, expiresAt: int, stored: bool)
    requires Enabled(s, LoginAnswered(subject, key, expiresAt))
    ensures var asked := Step(s, LoginAnswered(subject, key, expiresAt));
            var deleted := Step(asked, DeleteItem);
            var t := Step(deleted, InsertItem(stored));
            && asked.store == s.store && deleted.store == None && t.holder == None
            && t.store == if stored
                          then Some(Entry(key, s.server.next, None, Some(Session(s.server.next, subject, expiresAt))))
                          else None
  {}

  /** The profile command names the subject of the stored session and changes nothing else. */
  lemma ProfileNamesTheSession(s: State, ok: bool)
    requires Inv(s) && Enabled(s, WriteProfile(ok))
    ensures var t := Step(s, WriteProfile(ok));
            && s.store.Some? && s.store.value.session.Some? && t.holder == None
            && t.store == if ok
                          then Some(s.store.value.(identity := Some(s.store.value.session.value.subject)))
                          else s.store
  {}

  /** It writes exactly if the stored session is still that of the same subject and the profile is not stored yet. */
  lemma ProfileIsWrittenExactly(s: State, same: bool)
    requires Enabled(s, ReadProfile(same))
    ensures var subject := s.holder.value.1.subject;
            Enabled(Step(s, ReadProfile(same)), WriteProfile(true)) <==>
              && s.store.Some? && s.store.value.session.Some? && s.store.value.session.value.subject == subject
              && !(same && s.store.value.identity == Some(subject))
  {}

  /** Logout leaves no entry if the keychain obeys. */
  lemma LogoutClears(s: State, ok: bool)
    requires Enabled(s, ClearItem(ok))
    ensures Step(s, ClearItem(ok)).store == (if ok then None else s.store) && Step(s, ClearItem(ok)).holder == None
  {}

  // ---------------------------------------------------------------------------
  // The program text under the lock, as steps of the machine
  // ---------------------------------------------------------------------------

  lemma {:induction false} OneMoreAction(s: State, actions: seq<Action>, t: State, a: Action)
    requires Runs(s, actions, t) && Enabled(t, a)
    ensures Runs(s, actions + [a], Step(t, a))
    decreases |actions|
  {
    if actions == [] {
      assert ([a])[1..] == [] && actions + [a] == [a];
    } else {
      OneMoreAction(Step(s, actions[0]), actions[1..], t, a);
      assert (actions + [a])[1..] == actions[1..] + [a];
    }
  }

  /** What the server and the keychain do with a presented token: refuse it, lose the answer, or rotate it. */
  datatype Answer =
    | Refusal
    | LostAnswer
    | Rotation(e: Exchange, subject: string, expiresAt: int, kept: bool, valid: bool, stored: bool)

  /** The answer to a token is the server's: a rotation issues its next exchange, for the subject of the token. */
  ghost predicate Answers(server: Server, token: Exchange, answer: Answer) {
    answer != Refusal ==>
      Rotatable(server, token) && (answer.Rotation? ==> answer.e == server.next && answer.subject == server.grants[token].subject)
  }

  /** The session a rotation leads to. */
  function Renewed(c: Entry, answer: Answer): Entry
    requires answer.Rotation?
  {
    RotatedEntry(c, answer.e).(session := Some(Session(answer.e, answer.subject, answer.expiresAt)))
  }

  /** The entry holds this token and session beside the key and profile of the entry before it. */
  ghost predicate Holds(store: Option<Entry>, before: Entry, refresh: Exchange, session: Option<Session>) {
    && store.Some? && store.value.key == before.key && store.value.identity == before.identity
    && store.value.refresh == refresh && store.value.session == session
  }

  class SessionManager {
    /** The keychain entry, shared by all processes. */
    var store: Option<Entry>
    ghost var state: State

    ghost predicate Valid()
      reads this
    {
      Inv(state) && state.store == store
    }

    constructor ()
      ensures Valid() && state == INITIAL
    {
      store := None;
      state := INITIAL;
    }

    ghost method Take(start: State, actions: seq<Action>, a: Action) returns (more: seq<Action>)
      requires Inv(state) && Runs(start, actions, state) && Enabled(state, a)
      modifies this`state
      ensures state == Step(old(state), a) && Inv(state) && Runs(start, more, state)
    {
      OneMoreAction(start, actions, state, a);
      StepKeepsInv(state, a);
      more := actions + [a];
      state := Step(state, a);
    }

    /** The read before the lock: a usable session costs nothing more. */
    method ReadUnlocked(p: Process, now: int) returns (session: Option<Entry>, ghost actions: seq<Action>)
      requires Valid()
      modifies this`state
      ensures Valid() && Runs(old(state), actions, state) && state.holder == old(state.holder)
      ensures session == if store.Some? && store.value.session.Some? && store.value.session.value.expiresAt - now > 60
                         then store else None
      ensures session.Some? ==> p in state.handed && state.handed[p] == session.value
    {
      actions := [];
      session := None;
      if store.Some? && Usable(store.value, now) {
        actions := Take(state, actions, Action.ReadUnlocked(p, now));
        session := store;
      }
    }

    /** The section under the lock: read again, present the token, keep its successor, validate, store the session. */
    method RefreshLocked(p: Process, now: int, answer: Answer) returns (session: Option<Entry>, ghost actions: seq<Action>)
      requires Valid() && state.holder == None
      requires store.Some? ==> Answers(state.server, store.value.refresh, answer)
      modifies this
      ensures Valid() && Runs(old(state), actions, state) && state.holder == None
      ensures session.Some? ==> p in state.handed && state.handed[p] == session.value
      ensures old(store) == None ==> session == None && store == None
      ensures old(store).Some? ==>
                var c := old(store).value;
                if c.session.Some? && c.session.value.expiresAt - now > 60 then session == store == old(store)
                else if !answer.Rotation? || !answer.kept then session == None && store == old(store)
                else if !answer.valid || !answer.stored then session == None && Holds(store, c, answer.e, None)
                else session == store && Holds(store, c, answer.e, Some(Session(answer.e, answer.subject, answer.expiresAt)))
    {
      ghost var start := state;
      actions := [];
      actions := Take(start, actions, EnterFetch(p));
      actions := Take(start, actions, FetchLocked(now));
      if store == None { return None, actions; }
      if Usable(store.value, now) { return store, actions; }
      var credentials := store.value;
      if answer == Refusal {
        actions := Take(start, actions, PresentRefused);
        return None, actions;
      }
      if answer == LostAnswer {
        actions := Take(start, actions, PresentLost);
        return None, actions;
      }
      session, actions := AfterRotation(p, credentials, answer, start, actions);
    }

    method AfterRotation(p: Process, credentials: Entry, answer: Answer, ghost start: State, ghost before: seq<Action>)
        returns (session: Option<Entry>, ghost actions: seq<Action>)
      requires Valid() && Runs(start, before, state) && answer.Rotation?
      requires state.holder == Some((p, Presenting(credentials))) && Answers(state.server, credentials.refresh, answer)
      modifies this
      ensures Valid() && Runs(start, actions, state) && state.holder == None
      ensures session.Some? ==> p in state.handed && state.handed[p] == session.value
      ensures if !answer.kept then session == None && store == old(store)
              else if !answer.valid || !answer.stored then session == None && Holds(store, credentials, answer.e, None)
              else session == store && Holds(store, credentials, answer.e, Some(Session(answer.e, answer.subject, answer.expiresAt)))
    {
      actions := Take(start, before, PresentAnswered);
      actions := Take(start, actions, KeepRotation(answer.kept));
      if !answer.kept { return None, actions; }
      store := Some(RotatedEntry(credentials, answer.e));
      actions := Take(start, actions, Validate(answer.valid, answer.expiresAt));
      if !answer.valid { return None, actions; }
      actions := Take(start, actions, StoreSession(answer.stored));
      if !answer.stored { return None, actions; }
      store := Some(Renewed(credentials, answer));
      session := store;
    }
  }
}
