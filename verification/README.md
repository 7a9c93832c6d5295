# Weldall: protocols, caches and kernels

This project models the parts of Weldall where a mistake is hardest to see: state shared by
several processes, threads or callers, and the small algorithms whose output other parties
depend on. It is plain Dafny; `dafny verify dfyconfig.toml` goes through all of it.

Each file is one module.

* **Protocols and sessions** are state machines over every order of their steps. Where the source
  is a class whose methods update fields, the module has the same class, and each method states the
  whole new state through a function of the old one; the theorems about runs are about those
  functions. `Credentials` (shared keychain entry, one lock, rotating refresh tokens), `CliSlots`
  (process slots of the extension), `SharedDiscovery` and `ExclusiveChain` (coalesced discovery and
  the promise chain behind it), `Activation` (routes, bindings and views of an extension session) with
  `SessionSteps` (what each event does, and which events end a route) and `ResourceLimit` (what links do to its
  resource table),
  `JwksCache` (signing keys of the Python SDK), `ReplayStore` (replay protection of the SDK),
  `DiscoveryResolver` (merging, worker pool and admission in the command line).
* **Kernels** are methods with the loops of the source, or functions where the source is an
  expression, proved against an independent definition. `EditDistance`, `SemVer`, `TableLayout`,
  `Ipv4`, `Ipv6`, `Paths`, `RequestPrefix`, `ShellQuote`, `CanonicalJson` with `JsonReader`, and
  `CanonicalManifest` with `ManifestTies` and `ManifestDigest`.
* `Commons`, `Text`, `Sorting` and `Numerals` hold what several modules share.

## Assumptions

* Signatures, token formats and thumbprints are predicates or parameters. The JWT library's `exp`,
  maximum-age and tolerance checks are written out as `ReplayStore.JwtTimely`.
* The credential lock gives mutual exclusion; one keychain write or delete is atomic. Login's
  "replace" write is a delete followed by an insert, with a step in between.
* The network, child processes, timers and clocks are events or parameters, so a theorem about runs
  covers every answer, failure and timing. The clock of `ReplayStore` does not run back;
  `ReplayStore.ClockMustNotRunBack` says why that is needed.
* An aborted signal is a failing step of `Credentials`: the request is refused or lost, or a write does not happen.
* Text collation (`localeCompare`) is any total preorder on strings; it may tie distinct strings.
  Byte limits are an arbitrary flag on each publication, and on each result after its URIs became local ones.
* A string is a sequence of characters. JavaScript counts UTF-16 code units; nothing here depends on
  the difference except that widths in `TableLayout` and distances in `EditDistance` are per
  character.
* A rotation keeps subject and key: the server issues a refresh token for the subject and device key of the
  token presented (`Credentials.Rotate`). The client's own check of the new access token only decides whether
  a session is stored; that the stored subject is the one of the first login rests on the server.
* `trim` and `toLowerCase` are idempotent. The JSON value of a manifest is any value that means its entries;
  SHA-256 is then taken of its canonical text.
* Hash-based local names in `Activation` are parameters; local URIs are taken to be injective, tool
  names are not. Object identity is a tag that every operation draws anew.

## Where the code does less than it seems to promise

* **JWKS refresh.** The new key map is created before the loop over the fetched keys and is published
  in the `finally` block even when the loop fails, so a list with one bad key replaces the cache by
  the keys before it. `JwksCache.FailedFetchKeepsCacheExactlyBeforeTheLoop` gives the exact condition,
  `FailedFetchCanReplaceKeys` an instance.
* **Refresh tokens.** A token is offered again after the server refused it without rotating
  (`Credentials.RefusedTokenIsPresentedAgain`). `PresentedAgainExactlyAfterRefusalOrLoss` says exactly
  when.
* **Resource limit.** Publication limits resources to 200, links in results extend the table to 2000. A run
  keeps the 200 exactly if no accepted result links past it (`ResourceLimit.PassesTheLimitExactly`,
  `LimitIsKeptExactly`). Linked routes of other sources count when a source is published, so a session past
  the limit can refuse a source whatever it brings (`CrowdedOutIsRefused`), and does so until exactly a reset,
  another identity, a removal that leaves room, or the publication of another source
  (`CrowdedOutUntilExactly`, `RefusedUntilRoom`). `LinksFillTheTable` is an instance: the third answer of one
  tool with a hundred new links each goes past 200 and shuts out every other source, the twentieth reaches 2000.
* **Canonical JSON and manifests.** The text of a value depends on the order of its entries exactly when
  two present names of one of its objects tie under the collation
  (`JsonReader.EntryOrderIsIgnoredExactlyWithoutTies`), and the form of a manifest depends on the order of
  its input exactly when two names of one section or two elements of one set tie
  (`ManifestTies.FormIgnoresOrderExactlyWithoutTies`). The names and scopes that the manifest validator
  admits are lower-case ASCII words, which `localeCompare` does not tie.

Two conditions under which the code keeps a promise that it does not guard by itself:

* **Account choice.** A comment promises that removal cannot be used to choose another account. The session
  only ever adds to its account choices if every published connector entry leaves already bound selectors on
  their connector (`Activation.PublicationOnlyAddsExactly`, `AccountsOnlyGrow`); `UnbindsExactly` lists the
  events that unbind a connector. The extension does not check this of a response. The command line that
  produces the responses keeps it: the extension sends its bindings along, and a source whose selector is
  bound resolves to that account or not at all (`DiscoveryResolver.ResponsesKeepBoundSelectors`).
* **Undefined in arrays.** The canonical text stands for a second value exactly when some array in the value
  holds `undefined` and nothing else (`JsonReader.AbsentItemsAreLost`). Manifests read from YAML hold none.

## Model

| member | source | states |
|---|---|---|
| Credentials.EntryIsFromOneExchange | apps/cli/src/services/session-manager.ts:58-109 | over every interleaving of processes fetching, logging in, naming the profile, logging out and crashing, the stored session comes from the exchange of the stored refresh token, is bound to the stored key, and names that exchange's subject; so does every session handed to a process |
| Credentials.RunsKeepInv | apps/cli/src/oauth/session.ts:266-306 | the invariant behind it is kept by every step: entry coherent with the server's books, lock holder's view current, the stored token spent only if its successor was lost or is being written |
| Credentials.PresentedAgainExactlyAfterRefusalOrLoss | apps/cli/src/oauth/session.ts:266-289 | a refresh token about to be presented was presented before exactly if it was refused without rotation or its successor never reached the store; it is spent exactly in the second case |
| Credentials.NoSpentTokenIsPresented | apps/cli/src/services/session-manager.ts:84-92 | if every rotated token reaches the store, no process presents a token that the server has rotated away |
| Credentials.RefusedTokenIsPresentedAgain | apps/cli/src/services/session-manager.ts:84-92 | a run in which a token is presented twice although nothing was lost |
| Credentials.SessionManager.ReadUnlocked | apps/cli/src/services/session-manager.ts:66-72 | the read before the lock is a step of the machine and returns the stored entry exactly if its session has more than sixty seconds left |
| Credentials.SessionManager.RefreshLocked | apps/cli/src/services/session-manager.ts:75-109 | the program under the lock is a run of the machine; the stored entry is handed out as it is while its session has more than sixty seconds left; otherwise, for every answer of the server and every failing write or validation, the entry keeps its device key and profile and holds the old token, or the rotated one without a session, or the rotated one with exactly the session of that exchange |
| Credentials.SessionManager.AfterRotation | apps/cli/src/oauth/session.ts:288-306 | rotation written first without a session, then validation, then the session: key, profile, token and session of the stored entry after each failure point |
| Credentials.HandedOutExactly | apps/cli/src/services/session-manager.ts:41-46 | with or without the lock a process gets the stored session exactly while that has more than sixty seconds left; under the lock the token is otherwise presented |
| Credentials.PresentsExactly | apps/cli/src/oauth/session.ts:266-289 | what a presentation does to the books: always presented; spent, with a successor for the same subject and key, exactly if rotated; that successor is lost with a lost answer |
| Credentials.FailuresEndTheSection | apps/cli/src/services/session-manager.ts:75-109 | a refusal, a lost answer, a failing write or validation and a crash end the section with nothing written or handed out; a kept rotation and a valid token go on |
| Credentials.RefreshWritesExactly | apps/cli/src/services/session-manager.ts:26-39 | a refresh stores the rotated token without a session and then the session of that token and its exchange; no other step of it changes the entry, and neither write touches the device key or the profile |
| Credentials.RefreshesKeepKeyAndProfile | apps/cli/src/services/session-manager.ts:26-39 | over every interleaving without a write of login, logout or the profile command the stored device key and profile stay |
| Credentials.LoginReplacesTheEntry | apps/cli/src/services/auth.ts:87-101 | a login replaces the whole entry by its own key, token and session, without a profile; the old entry is gone if the insert fails |
| Credentials.ProfileNamesTheSession | apps/cli/src/services/auth.ts:149-163 | the profile write names the subject of the stored session and keeps key, token and session |
| Credentials.ProfileIsWrittenExactly | apps/cli/src/services/auth.ts:149-158 | the profile is written exactly if the stored session is still that of the same subject and the stored profile differs |
| CliSlots.WeldallCli.RunOnce | apps/goose-extension/src/cli.ts:141-160 | a call is invalid without a proper output bound, cancelled when closed or aborted, starts on a free slot exactly before its deadline, waits while fewer than sixteen do, and else is busy |
| CliSlots.WeldallCli.Resume | apps/goose-extension/src/cli.ts:156-164 | a slot owner starts exactly if the extension is open, its signal has not aborted and its deadline is ahead; otherwise it is busy exactly if the deadline has passed, else cancelled, and its slot is handed on |
| CliSlots.WeldallCli.WaitForSlot | apps/goose-extension/src/cli.ts:253-268 | at most sixteen wait; the seventeenth is refused as busy |
| CliSlots.WeldallCli.Done | apps/goose-extension/src/cli.ts:256-262 | a waiter that expires, is cancelled or is rejected leaves the queue and changes nothing else |
| CliSlots.WeldallCli.Release | apps/goose-extension/src/cli.ts:271-275 | the counter and insertion-ordered set of the source hand the slot to the oldest waiter, or free it |
| CliSlots.WeldallCli.Exit | apps/goose-extension/src/cli.ts:240-245 | a child's end returns its slot |
| CliSlots.WeldallCli.Close | apps/goose-extension/src/cli.ts:277-282 | close empties the queue and awaits exactly the children that are alive |
| CliSlots.CallsExactly | apps/goose-extension/src/cli.ts:141-160 | what becomes of an arriving call, for every state: when it starts, when it waits, and the one reason for each refusal; a call refused for its deadline leaves every slot as it was |
| CliSlots.ResumesExactly | apps/goose-extension/src/cli.ts:156-164 | a call that owns a slot starts exactly if the extension is open, the call is not aborted and its deadline is ahead; otherwise the reason, and the slot passes to the longest waiter |
| CliSlots.ExitsExactly | apps/goose-extension/src/cli.ts:240-245 | an ended child settles its call, and its slot passes to the longest waiter or is free |
| CliSlots.WaitersLeaveExactly | apps/goose-extension/src/cli.ts:253-282 | who leaves the queue and with which reason when a timer fires, a signal aborts or the extension closes |
| CliSlots.EveryCallCanStart | apps/goose-extension/src/cli.ts:248-275 | nobody is starved: on an open extension every waiting or due call that is not aborted and has its deadline ahead starts after finitely many continuations and exits |
| CliSlots.EveryRun | apps/goose-extension/src/cli.ts:141-282 | in every run from the start: at most 4 owners and 16 waiters, a queue only while all 4 slots are owned, no overtaking, no start at or past a deadline, every call in exactly one of waiting, owning or settled |
| CliSlots.RunsKeepInv | apps/goose-extension/src/cli.ts:141-282 | the invariant behind it is kept along every run |
| CliSlots.StepKeepsInv | apps/goose-extension/src/cli.ts:141-282 | each arrival, expiry, abort, continuation, exit and close keeps that invariant |
| CliSlots.NothingSurvivesClose | apps/goose-extension/src/cli.ts:277-282 | after close nothing starts, and whatever is alive is among the children that close awaits |
| CliSlots.NoneAliveAfterClose | apps/goose-extension/src/cli.ts:277-282 | in every run, once every child that close awaited has ended, none is alive and nobody waits |
| CliSlots.ResultsAreFinal | apps/goose-extension/src/cli.ts:253-268 | a call settles at most once |
| CliSlots.EverySlotReturns | apps/goose-extension/src/cli.ts:240-275 | from every reachable state continuations and exits alone settle every call and return every slot |
| SharedDiscovery.SharedDiscovery.DiscoverShared | apps/goose-extension/src/activation.ts:221-273 | a caller joins the current run of the same request or a new one, or is refused when sixteen wait |
| SharedDiscovery.SharedDiscovery.RunFor | apps/goose-extension/src/activation.ts:227-244 | the current run is kept exactly if it has the same key and is not aborted; otherwise one new run without waiters begins and is the shared one |
| SharedDiscovery.SharedDiscovery.AttachTo | apps/goose-extension/src/activation.ts:245-247 | the counter of the record stays the number of attached callers |
| SharedDiscovery.SharedDiscovery.Detach | apps/goose-extension/src/activation.ts:250-256 | detaching one caller leaves every other caller and counter as it is |
| SharedDiscovery.SharedDiscovery.CancelCaller | apps/goose-extension/src/activation.ts:257-261 | cancelling detaches, and aborts the run when nobody is left |
| SharedDiscovery.SharedDiscovery.DeliverTo | apps/goose-extension/src/activation.ts:263-270 | settlement detaches the caller and gives it the run's outcome |
| SharedDiscovery.SharedDiscovery.Done | apps/goose-extension/src/activation.ts:240-243 | a settled run clears the shared field only if it is still the shared one |
| SharedDiscovery.CallsShareExactly | apps/goose-extension/src/activation.ts:227-247 | a call shares the current run exactly if that is for the same request and not aborted, and then waits for it or is refused because sixteen do; otherwise it begins exactly one run and waits for that |
| SharedDiscovery.EqualRequestsShare | apps/goose-extension/src/activation.ts:227-247 | two calls with one request, however far apart, wait for one and the same run unless it was invalidated, cleared or aborted or another request came in between; beyond sixteen waiters they are refused |
| SharedDiscovery.SharedUntilExactly | apps/goose-extension/src/activation.ts:223-244 | a run stops being the shared one exactly by an invalidation, by its own settlement, or by a call that cannot share it |
| SharedDiscovery.InvalidatedRunsAreNotJoined | apps/goose-extension/src/activation.ts:222-246 | over every run after an invalidation no call waits for a run that began before it |
| SharedDiscovery.SettledRunsAreCleared | apps/goose-extension/src/activation.ts:240-243 | a settled run can be cleared at once, and no call joins it afterwards |
| SharedDiscovery.CancelsExactly | apps/goose-extension/src/activation.ts:250-261 | a caller that cancels leaves alone and is told so; its run is aborted exactly if nobody else waits for it |
| SharedDiscovery.DeliversExactly | apps/goose-extension/src/activation.ts:263-270 | a settled run answers whoever still waits with its outcome, and nobody else |
| SharedDiscovery.WaitersAreAnswered | apps/goose-extension/src/activation.ts:263-270 | every caller that waits can be answered with whatever outcome its run settles |
| SharedDiscovery.EveryRun | apps/goose-extension/src/activation.ts:221-273 | in every order of events at most 16 wait for a run, nobody for an aborted one, and whoever joined waits or has a result |
| SharedDiscovery.RunsKeepInv | apps/goose-extension/src/activation.ts:221-273 | the invariant behind it is kept by every event |
| SharedDiscovery.AbortedOnlyByLastWaiter | apps/goose-extension/src/activation.ts:257-261 | a run is aborted only when its last waiter cancels |
| SharedDiscovery.JoinsOnlyALiveRunOfItsKey | apps/goose-extension/src/activation.ts:229-246 | nobody joins an aborted run, one for another request, or one begun before the last invalidation |
| SharedDiscovery.UncancelledCallerGetsTheOutcome | apps/goose-extension/src/activation.ts:263-270 | a caller that does not cancel waits for a live run or has received exactly its outcome |
| SharedDiscovery.ResultsAreFinal | apps/goose-extension/src/activation.ts:249-256 | every caller settles at most once |
| ExclusiveChain.Exclusive.Submit | apps/goose-extension/src/activation.ts:212-220 | a job is refused exactly when sixteen are unsettled, and otherwise waits for the job that was last |
| ExclusiveChain.Exclusive.Start | apps/goose-extension/src/activation.ts:215-218 | a job whose predecessor settled, either way, runs |
| ExclusiveChain.Exclusive.Settle | apps/goose-extension/src/activation.ts:215-217 | settling counts down once |
| ExclusiveChain.OneJobAtATimeInOrder | apps/goose-extension/src/activation.ts:212-220 | in every run at most one job runs, jobs run in the order they came, and while any is unsettled one runs or can start, whatever failed before |
| ExclusiveChain.EveryJobSettles | apps/goose-extension/src/activation.ts:212-220 | from every reachable chain starts and settlements alone settle every accepted job |
| Activation.PublicationReplacesOneSource | apps/goose-extension/src/activation.ts:418-580 | a resolved entry replaces exactly its own source's routes by exactly its own definitions, on new binding objects, or leaves every route alone |
| Activation.EveryReachableSession | apps/goose-extension/src/activation.ts:404-580 | in every reachable session each route carries the current issuer and subject, the source, tool, binding and view limits hold, and bindings of one connector agree on its connection, as do its routes |
| Activation.RunsKeepInv | apps/goose-extension/src/activation.ts:367-580 | the invariant behind it is kept by resets, identity changes, publications, removals and late results in any order |
| Activation.LateResultsAreInert | apps/goose-extension/src/activation.ts:919-936 | a call or read whose binding is not the published one fails then and whenever its result arrives later, and adds no route |
| Activation.DeadStaysDead | apps/goose-extension/src/activation.ts:1023-1053 | no sequence of events brings a dead binding object back under its name |
| Activation.TimelyResultsAreAccepted | apps/goose-extension/src/activation.ts:919-962 | a call's result through a live binding is refused, and changes nothing, exactly when the table has no room for the distinct local URIs of its links or the result with local URIs in it is over the byte limit; otherwise exactly those URIs are added |
| Activation.TimelyReadsAreAccepted | apps/goose-extension/src/activation.ts:1023-1053 | a read is refused exactly in the same two cases, then without a route; a view that it added is kept either way |
| Activation.LinksFitExactly | apps/goose-extension/src/activation.ts:938-962 | mapping links succeeds exactly when the table and the distinct local URIs together stay within 2000, and the routed URIs are exactly those |
| Activation.DeadViewsStayShut | apps/goose-extension/src/activation.ts:781-786 | the token of a view whose binding died never opens anything again |
| Activation.PublicationOnlyAddsExactly | apps/goose-extension/src/activation.ts:544-563 | a publication that takes effect only adds account choices exactly when its entry leaves already bound selectors on their connector |
| Activation.AccountsOnlyGrow | apps/goose-extension/src/activation.ts:332-332 | over every run in which entries do so, without reset or change of identity, account choices are only ever added to, removals and late results included |
| Activation.UnbindsExactly | apps/goose-extension/src/activation.ts:367-414 | a bound connector is unbound by exactly a reset, another identity, or a publication that takes over all its selectors |
| Activation.AccountKeptWhileBound | apps/goose-extension/src/activation.ts:455-469 | until such an event a connector stays bound and on one account |
| Activation.UnboundConnectorTakesAnyAccount | apps/goose-extension/src/activation.ts:455-469 | a bound connector takes exactly its own connection, an unbound one any |
| Activation.TakenOverConnectorCanSwitch | apps/goose-extension/src/activation.ts:455-469 | from every session in which a publication takes over all selectors of a connector, that connector is refused no connection afterwards |
| Activation.McpActivation.Reset | apps/goose-extension/src/activation.ts:367-374 | a required reset drops identity, routes, bindings and pending selections |
| Activation.McpActivation.ApplyDiscovery | apps/goose-extension/src/activation.ts:404-418 | a response under another identity drops everything first; then its entries are published in turn |
| Activation.McpActivation.Publish | apps/goose-extension/src/activation.ts:429-579 | one resolved entry is published as a whole or not at all |
| Activation.McpActivation.ToolTable | apps/goose-extension/src/activation.ts:471-510 | tools are added one by one; a colliding local name refuses the entry |
| Activation.McpActivation.ResourceTable | apps/goose-extension/src/activation.ts:511-521 | resources are added one by one under their local URIs |
| Activation.McpActivation.Remove | apps/goose-extension/src/activation.ts:317-332 | a route is live afterwards exactly if it was and its source is not named; a pending selection stays exactly if it is not of a named source and offers no named connector; account choices, identity and views stay |
| Activation.McpActivation.Offer | apps/goose-extension/src/activation.ts:420-424 | an entry that needs an account is kept pending |
| Activation.McpActivation.MapUris | apps/goose-extension/src/activation.ts:938-962 | linked URIs get routes through the given binding up to 2000 |
| Activation.McpActivation.FinishCall | apps/goose-extension/src/activation.ts:919-937 | a returned call checks that its binding is still published and adds its links unless they overflow the table or the rewritten result is over the byte limit |
| Activation.McpActivation.FinishRead | apps/goose-extension/src/activation.ts:1023-1053 | a returned read does the same and may first add a view, dropping stale views and then the oldest; a refused read keeps the view and drops the links |
| Activation.FindView | apps/goose-extension/src/activation.ts:781-786 | a token opens only a view whose binding is the published one |
| SessionSteps.AcceptedExactly | apps/goose-extension/src/activation.ts:455-548 | an entry takes effect exactly if no selector of its connector is bound to another connection, its local tool names differ from each other and from those of other sources, and the session with it has at most 8 sources, 200 tools, 200 resources and 32 bound selectors |
| SessionSteps.PublishesExactly | apps/goose-extension/src/activation.ts:429-579 | an acceptable entry takes effect as a whole: its routes are exactly its definitions, the last of each URI, on new objects that share a record, its selectors are bound and no longer pending, all else stays; any other entry changes nothing |
| SessionSteps.LastDefinitionIsRouted | apps/goose-extension/src/activation.ts:511-521 | of several definitions with one URI the last is routed |
| SessionSteps.ResponseIsARun | apps/goose-extension/src/activation.ts:404-580 | applying a response is adopting its identity and publishing its entries one after the other, none left out, repeated or moved |
| SessionSteps.IdentityChangesExactly | apps/goose-extension/src/activation.ts:367-414 | a reset or another identity empties routes, account choices and pending selections; the same identity changes nothing |
| SessionSteps.RemovesExactly | apps/goose-extension/src/activation.ts:317-332 | the removal event takes exactly the routes of the named sources and the pending selections that are theirs or offer one of their connectors |
| SessionSteps.RoutesEndExactly | apps/goose-extension/src/activation.ts:317-580 | in every reachable session a live route ends by exactly a reset, another identity, the removal of its source or an accepted entry of its source; late results, other sources and refused entries leave it alone |
| SessionSteps.EndedForGood | apps/goose-extension/src/activation.ts:919-936 | after any of these events every call and read sent through a route of the source fails in every later session and changes nothing |
| SessionSteps.RoutesStay | apps/goose-extension/src/activation.ts:317-580 | over every run without such an event for its source a live route stays the published one |
| SessionSteps.ResultsAddExactly | apps/goose-extension/src/activation.ts:919-962 | a call result leaves behind exactly a route for each new link, through the record of its binding, or nothing |
| SessionSteps.ReadsAddExactly | apps/goose-extension/src/activation.ts:1023-1053 | a read leaves behind its view and exactly its links or none; through a dead route nothing |
| SessionSteps.ViewAddedExactly | apps/goose-extension/src/activation.ts:1027-1033 | a view is added exactly for an app resource of a native source that asks for it; stale views go, and the oldest of 128 live ones |
| SessionSteps.OpensExactly | apps/goose-extension/src/activation.ts:781-786 | a token opens exactly the view it was given for while that resource is still the published one |
| SessionSteps.ReadOpensItsView | apps/goose-extension/src/activation.ts:1027-1033 | after a read of an app resource the new token opens its view, and every other token opens what it opened unless its view was evicted |
| ResourceLimit.PassesTheLimitExactly | apps/goose-extension/src/activation.ts:529-534 | a session within 200 resources is taken past 200 by exactly an accepted result whose distinct local URIs make more than 200 with the table and at most 2000 |
| ResourceLimit.LimitIsKeptExactly | apps/goose-extension/src/activation.ts:938-962 | a run keeps 200 in every session it goes through exactly if none of its results is such a one |
| ResourceLimit.CrowdedOutIsRefused | apps/goose-extension/src/activation.ts:522-534 | while the routes of other sources alone are more than 200, no entry of a source is published, not even one without resources |
| ResourceLimit.CrowdedOutUntilExactly | apps/goose-extension/src/activation.ts:522-580 | that ends by exactly a reset, another identity, a removal that leaves at most 200 routes of other sources, or an accepted publication of another source |
| ResourceLimit.RefusedUntilRoom | apps/goose-extension/src/activation.ts:522-580 | over every run without such an event every entry of the source stays refused, late results and refused entries included |
| ResourceLimit.LinksFillTheTable | apps/goose-extension/src/activation.ts:919-962 | runs from the initial session in which one published tool answers up to twenty times with a hundred new links, the most that a result can hold: each answer adds a hundred resources, up to the 2000, and from the third on every other source is shut out |
| JwksCache.WeldallDiscovery.Enter | packages/python-sdk/src/weldall/discovery.py:143-158 | a thread waits exactly while something loads, and loads exactly if it forces, there are no keys or they have expired, and the throttle lets it |
| JwksCache.WeldallDiscovery.ReadKeys | packages/python-sdk/src/weldall/discovery.py:166-184 | the loop reads the longest prefix of good keys and fails exactly if a key is left |
| JwksCache.WeldallDiscovery.Publish | packages/python-sdk/src/weldall/discovery.py:185-192 | a map that exists is published with a new expiry, whether or not the fetch failed |
| JwksCache.EntersExactly | packages/python-sdk/src/weldall/discovery.py:143-158 | in every interleaving an entering thread joins the refresh under way; else it goes on with the cached keys exactly if these were published less than 60 s ago and it does not force, or it is throttled and a throttled refresh began less than 5 s ago; else it begins a refresh |
| JwksCache.EveryKeyWasFetched | packages/python-sdk/src/weldall/discovery.py:172-179 | in every interleaving each cached key is a P-256 key that a fetched list gave under its non-empty name |
| JwksCache.RefreshEndsExactly | packages/python-sdk/src/weldall/discovery.py:160-194 | in every interleaving a refresh succeeds exactly on a well-formed list of 1 to 20 keys; from every list of that size the longest good part is published as of the end of the fetch, from anything else nothing; its thread leaves with that outcome and nothing loads |
| JwksCache.WokenWithTheOutcome | packages/python-sdk/src/weldall/discovery.py:144-149 | in every interleaving a waiter that finds nothing loading leaves with the outcome of the last refresh that ended, its own or a later one |
| JwksCache.SuccessIsComplete | packages/python-sdk/src/weldall/discovery.py:169-179 | a fetch succeeds exactly on a well-formed list of 1 to 20 keys and then brings its complete key set |
| JwksCache.KeySetMembers | packages/python-sdk/src/weldall/discovery.py:172-179 | the key set of a list holds exactly its keys |
| JwksCache.FailedFetchKeepsCacheExactlyBeforeTheLoop | packages/python-sdk/src/weldall/discovery.py:171-192 | a failed fetch leaves keys and expiry alone exactly if it failed before the loop over the keys |
| JwksCache.FailedFetchCanReplaceKeys | packages/python-sdk/src/weldall/discovery.py:171-192 | a list with one good and one bad key fails and yet replaces the cache |
| JwksCache.EveryInterleaving | packages/python-sdk/src/weldall/discovery.py:142-194 | in every thread interleaving at most one refresh is in flight, loading is set while one is, keys come from one fetched list, throttled refreshes start at least 5 s apart |
| JwksCache.WeldallDiscovery.Wake | packages/python-sdk/src/weldall/discovery.py:144-149 | a waiter that has the lock again waits on while something loads, and else leaves with the shared error or without |
| JwksCache.WaiterLeavesExactlyWhenNothingLoads | packages/python-sdk/src/weldall/discovery.py:145-146 | waking takes a waiter out exactly when nothing is loading, and otherwise changes nothing |
| JwksCache.WaitersShareTheOutcome | packages/python-sdk/src/weldall/discovery.py:144-149 | in every interleaving each thread leaves with nothing loading, after the refresh it joined or ran has ended, and raises exactly if the last refresh that had ended by then failed |
| JwksCache.RunsKeepInv | packages/python-sdk/src/weldall/discovery.py:142-194 | the invariant behind it is kept by every critical section |
| JwksCache.KeysCompleteWithoutBrokenLists | packages/python-sdk/src/weldall/discovery.py:185-192 | while no list of accepted size has a bad key, the keys are the complete key set of one successful fetch |
| ReplayStore.InMemory.Create | packages/sdk/src/replay.ts:5-17 | a store exists exactly for a positive capacity, and starts empty |
| ReplayStore.InMemory.Consume | packages/sdk/src/replay.ts:19-27 | what one use answers and what the store holds afterwards, within its capacity |
| ReplayStore.InMemory.Evict | packages/sdk/src/replay.ts:21-21 | the loop drops exactly the expired keys |
| ReplayStore.StoreKeysDistinguish | packages/sdk/src/replay.ts:38-41 | store keys are equal exactly for credentials of one kind with the same identifiers, separators included |
| ReplayStore.OutlastsWindow | packages/sdk/src/dpop.ts:90-126 | while a credential would pass its window in floored seconds, its stored key has not expired in milliseconds |
| ReplayStore.DpopNeedsSixtyOneSeconds | packages/sdk/src/dpop.ts:104-126 | for a proof the stored lifetime covers the window exactly from 61 seconds on |
| ReplayStore.IdJagNeedsFiveSeconds | packages/sdk/src/core.ts:305-308 | for an ID-JAG it covers the window exactly from 5 seconds on |
| ReplayStore.WindowInMilliseconds | packages/sdk/src/core.ts:136-228 | the exact windows in milliseconds: a proof from 5 s before its issue to 61 s after it, an assertion of at most five minutes (skills: one) from 5 s before its issue to 5 s after its expiry; the age limit of the library never decides |
| ReplayStore.ExpiryIsTheWindowsEnd | packages/sdk/src/dpop.ts:120-126 | a stored proof expires in the millisecond in which its window ends, a stored assertion one second later |
| ReplayStore.LiveKeysAreHeldKeys | packages/sdk/src/replay.ts:17-29 | over every history the live keys are exactly those taken by an earlier accepted attempt and not yet expired |
| ReplayStore.VerdictIsDecidedByHistory | packages/sdk/src/replay.ts:19-27 | the verdict on each attempt in terms of the earlier verdicts alone: untimely, its key still held by an accepted attempt, too many keys held, or accepted |
| ReplayStore.AcceptedAtMostOnce | packages/sdk/src/core.ts:298-308 | no credential is accepted twice, whatever comes in between and whatever is evicted |
| ReplayStore.IdentifierNotReusedInItsWindow | packages/sdk/src/dpop.ts:120-126 | an identifier is accepted again only when the credential that first carried it is past its window for ever |
| ReplayStore.NeverOverCapacity | packages/sdk/src/replay.ts:24-24 | the store never exceeds its capacity |
| ReplayStore.ClockMustNotRunBack | packages/sdk/src/replay.ts:20-21 | with a clock that runs back a proof is accepted twice |
| ReplayStore.Token | packages/sdk/src/core.ts:298-308 | the order of the token endpoint: window and key of the proof before it is consumed, a refused proof leaves the assertion unused, a refused assertion still uses up the proof |
| DiscoveryResolver.Selections.Add | apps/cli/src/services/discovery.ts:134-172 | adding one request to the selections made so far |
| DiscoveryResolver.SelectionsSayWhatWasAsked | apps/cli/src/services/discovery.ts:134-172 | a selection is the union of the requests for its source: direct, skills, tools and resources as any of them asked, in whatever order |
| DiscoveryResolver.ResolverPool.Next | apps/cli/src/services/discovery.ts:304-306 | a worker takes the next index or stops |
| DiscoveryResolver.ResolverPool.Store | apps/cli/src/services/discovery.ts:307-478 | an outcome goes into the slot of its own selection |
| DiscoveryResolver.EachSourceIsResolvedOnce | apps/cli/src/services/discovery.ts:296-310 | under every interleaving the first eight selections are resolved exactly once each, into their own slots, and the rest stay "capacity" |
| DiscoveryResolver.RunsKeepInv | apps/cli/src/services/discovery.ts:296-310 | no two workers hold one selection, and each taken selection is held or resolved once |
| DiscoveryResolver.EveryRunHasTheSameLength | apps/cli/src/services/discovery.ts:301-306 | the pool terminates: every interleaving takes the same number of steps |
| DiscoveryResolver.AWorkerCanAlwaysGoOn | apps/cli/src/services/discovery.ts:301-306 | no worker is ever stuck |
| DiscoveryResolver.MergeEntries | apps/cli/src/services/discovery.ts:484-510 | the loop merges values by id: native resources, connectors and failures with their status |
| DiscoveryResolver.FirstResourceOrLastFailureStays | apps/cli/src/services/discovery.ts:493-509 | a native resource that is resolved first under its id stays; while nothing is resolved under an id the last failure stays, with its status; an id without values has no entry |
| DiscoveryResolver.EntryIsTheUnion | apps/cli/src/services/discovery.ts:486-510 | if a connector is resolved first under an id and whatever connector is resolved there names one connection, the entry is the union of all of it, and failures beside it are dropped |
| DiscoveryResolver.LastDefinitionCounts | apps/cli/src/services/discovery.ts:501-508 | of several definitions under one name the merged entry has the one that came last, for tools and for resources |
| DiscoveryResolver.ConflictsDependOnOrder | apps/cli/src/services/discovery.ts:493-496 | with conflicting connections the same values in another order end differently |
| DiscoveryResolver.ChosenExactly | apps/cli/src/services/discovery.ts:362-404 | an account is chosen for a source exactly if it is usable, agrees with what is bound and with what is selected, and is the only one where neither says |
| DiscoveryResolver.BoundExactly | apps/cli/src/services/discovery.ts:362-374 | a source is bound to the account of its own selector, or else to the one account that all bindings of its connectors name |
| DiscoveryResolver.RefusedExactly | apps/cli/src/services/discovery.ts:375-424 | where no account is chosen, which of the five reasons it is |
| DiscoveryResolver.ResponsesKeepBoundSelectors | apps/cli/src/services/discovery.ts:362-404 | every entry of a response, however many sources were merged into it, keeps the selectors bound in the session on their connector and connection |
| DiscoveryResolver.Admit | apps/cli/src/services/discovery.ts:511-532 | every entry keeps its place; a source is kept exactly when it fits beside those kept before it and the reservations after it; final totals respect both limits; the reserved response fitting is enough for the final one |
| DiscoveryResolver.AdmissionIsDetermined | apps/cli/src/services/discovery.ts:518-532 | that rule leaves exactly one outcome |
| DiscoveryResolver.KeptExactly | apps/cli/src/services/discovery.ts:518-532 | a source is kept exactly if its definitions bring those kept before it to at most 200 tools and 200 resources and the response with every later source reserved fits |
| EditDistance.Distance | apps/cli/src/validation.ts:5-21 | the two swapped rows compute the recursive edit distance |
| EditDistance.DistIsFewestEdits | apps/cli/src/validation.ts:5-21 | the distance is the least number of single-character edits between the strings |
| EditDistance.ZeroIffEqual | apps/cli/src/validation.ts:5-21 | zero exactly for equal strings |
| EditDistance.Symmetric | apps/cli/src/validation.ts:5-21 | symmetric |
| EditDistance.Triangle | apps/cli/src/validation.ts:5-21 | the triangle inequality |
| EditDistance.ClosestIsFirstNearest | apps/cli/src/validation.ts:23-27 | the suggestion is the first of the nearest candidates, withheld exactly when all are further than two edits |
| SemVer.IsNewerVersion | apps/cli/src/update-check.ts:39-64 | the loops decide exactly whether one version has higher precedence, on numbers and identifiers; an invalid version is never newer |
| SemVer.NewerPreRelease | apps/cli/src/update-check.ts:50-63 | the second loop is the pre-release order of section 11 |
| SemVer.CompareFields | apps/cli/src/update-check.ts:43-46 | the first loop is the order of major, minor and patch as numbers |
| SemVer.NumericOrder | apps/cli/src/update-check.ts:34-37 | length, then text, is the numeric order of digit strings of any length |
| SemVer.Trichotomy | apps/cli/src/update-check.ts:39-64 | of two valid versions at most one is newer, and neither exactly when their texts agree up to build metadata |
| SemVer.NewerIsTransitive | apps/cli/src/update-check.ts:39-64 | newer is transitive |
| SemVer.PartsGiveBackTheText | apps/cli/src/update-check.ts:25-32 | the matched parts hold everything before the build metadata |
| JsonReader.CanonicalTextIsReadBack | apps/cli/src/iac/manifest.ts:669-678 | the canonical text is read back as the value with its entries sorted at every level and absent ones dropped, undefined items of arrays included |
| JsonReader.EqualTextExactlyForEqualMeaning | apps/cli/src/iac/manifest.ts:669-678 | the text of a value none of whose objects has two present names that tie is the text of exactly the values equal to it up to entry order and absent entries |
| JsonReader.EqualTextMeansEqual | apps/cli/src/iac/manifest.ts:669-678 | with or without ties one text never stands for two meanings |
| JsonReader.EntryOrderIsIgnoredExactlyWithoutTies | apps/cli/src/iac/manifest.ts:671-676 | some value means the same and has another text exactly when an object in the value has two present names that tie |
| JsonReader.NormalKeepsMeaning | apps/cli/src/iac/manifest.ts:671-676 | sorting and dropping absent entries keep the meaning |
| JsonReader.AbsentItemsAreLost | apps/cli/src/iac/manifest.ts:670-670 | the text stands for a second value exactly when some array in the value holds undefined and nothing else |
| CanonicalJson.TextOfNormal | apps/cli/src/iac/manifest.ts:669-678 | filtering and sorting texts level by level is printing the sorted value |
| CanonicalJson.StringIsRead | apps/cli/src/iac/manifest.ts:675-677 | quoted strings with escapes are read back, whatever they hold |
| CanonicalManifest.CanonicalFormExactly | apps/cli/src/iac/manifest.ts:582-661 | a manifest without ties has the canonical form of exactly the manifests that say the same: record order, set order and duplicates (Atlassian products and sites included), absent or empty sections, default discovery, unknown fields of the cli section, surrounding blanks and letter case of addresses aside |
| CanonicalManifest.EqualFormsSayTheSame | apps/cli/src/iac/manifest.ts:582-661 | equal canonical forms say the same, ties or not |
| CanonicalManifest.ProviderExactly | apps/cli/src/iac/atlassian.ts:83-90 | the form of a provider says its scopes and, for Atlassian, its products and sites as sets |
| ManifestTies.FormIgnoresOrderExactlyWithoutTies | apps/cli/src/iac/manifest.ts:582-661 | some manifest says the same and has another canonical form exactly when two names of one section or two elements of one set tie |
| ManifestDigest.DigestTextExactly | apps/cli/src/iac/manifest.ts:663-667 | the text a digest is taken of is equal exactly for manifests that say the same |
| ManifestDigest.EqualDigestTextsSayTheSame | apps/cli/src/iac/manifest.ts:663-667 | one such text never stands for manifests that say different things, ties or not |
| CanonicalManifest.CanonicalFormIsIdempotent | apps/cli/src/iac/manifest.ts:582-661 | canonicalising twice is canonicalising once, ties or not |
| Sorting.CanonicalSetIsTheSet | apps/cli/src/iac/manifest.ts:583-584 | a sorted set none of whose elements tie says which elements there are and nothing else |
| Sorting.CanonicalSetIsIdempotent | apps/cli/src/iac/manifest.ts:583-584 | a sorted set is its own canonical form |
| Sorting.OrderIsIgnoredExactlyWithoutTies | apps/cli/src/iac/manifest.ts:583-584 | a set ignores the order and repetition of its elements exactly when no two of them tie |
| Sorting.SortForgetsOrderExactlyWithoutTies | apps/cli/src/iac/manifest.ts:587-588 | a stably sorted list of different elements forgets how they came exactly when no two of them tie |
| Ipv4.CanonicalIpv4 | packages/python-sdk/src/weldall/_url.py:72-97 | a host is passed on, refused or written as the dotted form of the address it reads as |
| Ipv4.SumOfParts | packages/python-sdk/src/weldall/_url.py:94-96 | the loop computes the mixed-radix value: a byte for every part but the last, which fills the rest |
| Ipv4.AddressesHave32Bits | packages/python-sdk/src/weldall/_url.py:90-96 | the value stays below 2^32 |
| Ipv4.DottedIsReadBack | packages/python-sdk/src/weldall/_url.py:97-97 | the dotted form of every 32-bit address reads as that address |
| Ipv4.CanonicalHostKeepsTheAddress | packages/python-sdk/src/weldall/_url.py:72-97 | the canonical host reads as the same address, so canonicalising again changes nothing |
| Ipv6.SerializeIpv6 | packages/python-sdk/src/weldall/_url.py:100-121 | the compressed run is the leftmost of the longest runs of at least two zero groups |
| Ipv6.FindRun | packages/python-sdk/src/weldall/_url.py:103-116 | the nested loops find that run, or that there is none |
| Ipv6.BestRunIsDetermined | packages/python-sdk/src/weldall/_url.py:113-115 | there is one such run at most |
| Ipv6.TextIsReadBack | packages/python-sdk/src/weldall/_url.py:100-121 | every 128-bit address has one canonical text and is read back from it |
| Paths.NormalizedPath | packages/python-sdk/src/weldall/_url.py:198-223 | the loop over segments computes the shortened path |
| Paths.NoDotSegmentIsLeft | packages/python-sdk/src/weldall/_url.py:189-223 | a normalised absolute path is absolute and has no dot segment, plain or percent-encoded |
| Paths.DotSegmentsExactly | packages/python-sdk/src/weldall/_url.py:189-195 | the dot segments are exactly the three spellings of a dot and the nine of two, percent-encoded in either case or not |
| Paths.NormalisingTwiceIsOnce | packages/python-sdk/src/weldall/_url.py:198-223 | normalising absolute paths is idempotent |
| Paths.NormalisingIsRemoveDotSegments | packages/python-sdk/src/weldall/_url.py:198-223 | on absolute paths it is remove_dot_segments of section 5.2.4 of RFC 3986 after decoding the dots of dot segments, and on the path itself when none is encoded |
| Paths.RelativeIsUnderTheRoot | packages/python-sdk/src/weldall/_url.py:198-223 | a relative path is shortened exactly as it would be under the root; the empty path is the root |
| TableLayout.LayoutTable | apps/cli/src/output.tsx:108-142 | the shrinking loop ends within the terminal's width, exactly at it when the table must shrink, or with every column empty; floors and max-min fairness hold |
| TableLayout.LayoutIsDetermined | apps/cli/src/output.tsx:127-140 | fairness, floors and the terminal's width leave exactly one layout |
| TableLayout.NaturalHoldsEverything | apps/cli/src/output.tsx:119-124 | the width before shrinking is the widest of the header and the cells |
| TableLayout.ShrinkOne | apps/cli/src/output.tsx:128-139 | one round narrows by one the leftmost widest column above its floor, or else the leftmost widest, and keeps fairness |
| TableLayout.TargetAboveFloor | apps/cli/src/output.tsx:128-133 | the inner loop finds that column exactly when a column is above its floor |
| TableLayout.WrapTableCell | apps/cli/src/output.tsx:145-158 | the loop cuts the text at the last space in the second half of each line, or at the width |
| TableLayout.LinesFit | apps/cli/src/output.tsx:145-158 | no line is wider than the column |
| TableLayout.ContentIsKept | apps/cli/src/output.tsx:144-158 | wrapping loses only blanks |
| TableLayout.WrappingIsDetermined | apps/cli/src/output.tsx:150-155 | there is only one such wrapping |
| RequestPrefix.OverlapIsACommonTarget | packages/sdk/src/resource-registry.ts:79-83 | two prefixes overlap exactly when some request is accepted by both |
| RequestPrefix.OneResourceExactlyWithoutOverlap | packages/sdk/src/resource-registry.ts:85-91 | a registry answers every target with at most one resource exactly when no two of its resources overlap |
| RequestPrefix.NormalisationKeepsAcceptance | packages/sdk/src/resource-registry.ts:45-77 | normalising is idempotent and keeps what a prefix accepts |
| RequestPrefix.NormalFormExactly | packages/sdk/src/resource-registry.ts:45-62 | the normal form lacks the slashes at the end of the path, all but that of the root, and nothing else |
| RequestPrefix.AcceptsWholeSegments | packages/sdk/src/resource-registry.ts:68-77 | a prefix accepts exactly the targets of its origin whose path begins with its segments, whole segments at a time |
| RequestPrefix.TrailingSlashesDoNotMatter | packages/sdk/src/resource-registry.ts:53-55 | a trailing slash makes no difference |
| RequestPrefix.AnyAcceptsMeansOne | packages/sdk/src/resource-registry.ts:88-90 | a resource answers exactly when one of its prefixes accepts |
| RequestPrefix.RefusedExactly | packages/sdk/src/resource-registry.ts:45-83 | exactly what is no https URL without credentials, query (of a prefix), fragment and percent encoding is refused, by acceptance and by overlap |
| RequestPrefix.AnyRefusesExactly | packages/sdk/src/resource-registry.ts:88-90 | a resource refuses a target exactly if a prefix that does is reached before one that accepts |
| ShellQuote.CommandIsReadBack | apps/cli/src/connection-usage.ts:13-15 | a POSIX shell splits a command into exactly its words and arguments, whatever the arguments hold |
| ShellQuote.QuotedExactly | apps/cli/src/connection-usage.ts:13-15 | an argument stands unquoted exactly if it is not empty and holds only ASCII letters, digits and -./:=_ |
| ShellQuote.ShowCommandIsReadBack | apps/cli/src/connection-usage.ts:17-18 | the argument list of the show command |
| ShellQuote.ToolsCommandIsReadBack | apps/cli/src/connection-usage.ts:20-23 | the argument list of the tools command |
| ShellQuote.ExampleCommandIsReadBack | apps/cli/src/connection-usage.ts:43-43 | the argument list of an example request |

## Left out

- Cryptography, JWT parsing, HTTP, the operating system's keychain, lock files and child processes: predicates, parameters or events.
- The bodies of login, profile and logout: they are steps of the machine in `Credentials`, not methods, because the lock holder's steps are interleaved with reads of other processes.
- The retry after a failed keychain read in `WeldallCli.run`, and the SIGTERM and SIGKILL escalation: a call has one deadline and one end here.
- The metadata flight of `_discover` in the Python SDK, and the lookup sequence of `get_signing_key`: the first is the pattern of the key refresh without expiry or throttle.
- The replay setting "disabled", and the machine-assertion namespace, which uses the same store.
- The legacy `prepare` path of the extension, HTML sanitising, change notifications and the tool calls of embedded views: they add no route.
- The outcome of merging values that name one connector and conflicting connections: it depends on their order, and nothing is stated beyond that. The order of merged entries is not modelled either.
- Marking skills "incomplete" after admission, the search page and its cursor: they follow from one reading.
- Field-by-field manifest validation, the secret sections and the dependency lists of skills in `CanonicalManifest`: they go through schemas of their own.
- JavaScript's own order of integer-like property names: entries have the order they are given.
- Lone surrogates in JSON strings and numbers that JSON cannot express: strings are sequences of characters, numbers are numerals.
- URL parsing and percent-encoding tables: `RequestPrefix` starts from parsed URLs, `Paths` from the path.
- Update-check timing and caching: one comparison each.
