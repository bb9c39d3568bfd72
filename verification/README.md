# Morrows: a verified model of its stateful core

Morrows coordinates agents that share tasks and project knowledge. This project models the parts of it
whose correctness rests on more than one function, and proves what they promise over every input, every
reply of the environment, or every interleaving.

- **Native memory worktrees** (`Memory`, `Lineage`, `Checkout`, `Refresh`, `Discovery`, `Fetch`, `FetchedCheckout`,
  `Worktree`, `GitGraph`, `Publish`). Shared knowledge is a supersession graph that the CLI reads page by page while
  others write, partitions into documents named by the root of their lineage, commits as one import chain per
  project behind compare-and-swap refs, and publishes from immutable commits. Git is an append-only
  graph of content-addressed commits (a commit is its content) with a map of refs.
- **Browser OAuth session** (`OAuthBrowser`, `OAuthProtocol`, `OAuthSessions`). Tabs share one record and
  refresh it under a lock; the server rotates refresh tokens. Each method of `OAuthBrowser.Client` is one
  stretch of code between two awaits, and the protocol interleaves these stretches with the server's.
- **Remote launches** (`Monitor`, `Sweep`, `ProviderOutput`). The polling monitor and the cleanup loops
  run against a runtime and a store that may answer anything; crash recovery starts a second monitor.
- **Acceptance criteria** (`JsonPointer`, `Completion`, `Acceptance`). Criteria are addressed by JSON Pointers
  (RFC 6901) that must lead back to exactly the declared requirement.
- **Scheduler and console** (`Scheduler`, `MemoryPanel`, `TaskTable`).

Code that updates state in place is a method with the source's own branches, proved equal to a specification
function; the lemmas then speak about that function.

## What does not hold as one might expect

Each of these is proved with its exact condition.

- A checkout never reports a cycle whose members are all replaced: it silently leaves them out
  (`Checkout.CycleIsSilent`). It shows every lineage if and only if the graph is acyclic
  (`Checkout.EverythingShownIff`).
- A refresh token can be posted twice. After a refresh of the stored session its token stays saved, and the next
  call posts it again, if and only if the reply was neither tokens nor a 400 or 401
  (`OAuthSessions.PresentedAgainIff`; `OAuthSessions.FailurePresentsAgain` is such a run from any initial
  state); a run without such a reply posts no token twice (`OAuthSessions.NoFailureNoRepeat`). What the lock
  protects is that a token the server has *rotated* is never posted again, and this holds in every run if and only
  if the browser has Web Locks and no token is saved in two places to begin with, as in a duplicated tab (`OAuthProtocol.NoReplayIff`).
- One rejected access token can cause two rotations, and a later call that rejects it can post: a saved
  session without an access token is posted for whatever token was rejected (`web/src/api.ts:95`). Neither happens
  in any run if and only if no tab keeps a usable session without an access token from before the upgrade
  (`OAuthSessions.AtMostOneRotationIff`, `OAuthSessions.LaterCallsReuseIff`; the failing run is
  `OAuthSessions.NamelessPostsAgain`). Such a session in the shared record alone does no harm, since nobody has
  got a token while it is there.
- A logout stays in force if and only if no other tab still keeps a usable session from before the upgrade
  (`OAuthSessions.LogoutStaysIff`); reading the session in such a tab signs in again.
- A monitor that recovers after a crash records the same exit code and error as the uninterrupted one if and
  only if no stop request came in between their decisive polls (`Monitor.CrashTransparentIff`); the two can
  differ (`Monitor.CrashCanShow`).
- A refresh that wrote history is forgotten when its merge is aborted (`Refresh.AbortedMergeForgetsHistory`): the
  next plain refresh keeps history if and only if the merge was completed or the worktree had history already
  (`Refresh.NextKeepsHistoryIff`).
- The project head does not cover the organization's rows. If one of them is deleted during a fetch, the result
  can be no listing at all (`Fetch.RemovalBreaksFetch`). Whatever the writers do, a successful fetch returns exactly the
  entries listed at its last call if and only if all it returned is still listed then
  (`Fetch.FetchShowsListingIff`), and then a checkout writes what a checkout of that listing writes
  (`FetchedCheckout.CheckoutOfFetch`). Rows that change without a new head and are only added never break it
  (`Fetch.FreshOrInsertFetchIsSnapshot`).
- `docs/memory-files.md:36` says that a project still served from SQL is not read as a snapshot. While writers only
  insert, the duplicate check alone makes it one (`Fetch.InsertOnlyFetchIsSnapshot`).
- The criteria that the legacy import builds pass validation as they are only when there are none
  (`Acceptance.ImportPassesIff`), because their paths are reserved for migration.

## Assumptions

- Memory listing: one fixed total order; offsets fit in signed 64 bits (`Countable`); each `project_get`
  reads project, page and head in this order, and calls follow each other (`InOrder`).
- Worktrees: between checkouts nobody edits `project.json`, and a completed merge leaves that of the import merged
  last (`Keeps`).
- JSON printing and parsing are a `Codec` whose parser undoes its printer (`RoundTrips`); UUIDs are their
  canonical text.
- Handlers and the stretches between awaits are atomic. Tokens are issued once and carry no surrounding
  white space. A rotation that the server commits reaches the tab that holds the lock. Legacy per-tab keys exist
  only in the initial state. A request asks for a
  refresh without a token or with one that its tab has got before (`carried`), as the callers in `api` do.
- The members of a JSON object are listed each once, in some fixed order (`Enumerates`).
- Clocks do not go back (`Timed`).

## Model

| member | source | states |
|---|---|---|
| Lineage.LineageRoot | crates/morrows-cli/src/memory.rs:363-377 | the walk up the supersession links stops on every graph, cyclic ones included, with the outcome that `LineageRootMeaning` explains |
| Lineage.LineageRootMeaning | crates/morrows-cli/src/memory.rs:363-377 | Ok exactly when a parentless ancestor is reachable inside the listing and the scope, and then it is that one; otherwise the error says exactly which of cycle, missing parent or scope change the chain meets |
| Lineage.OutcomeIsUnique | crates/morrows-cli/src/memory.rs:363-377 | root, cycle, missing parent and scope change exclude each other, and the root is unique |
| Lineage.SoundHasRoot | crates/morrows-cli/src/memory.rs:363-377 | in a complete, scope-consistent, acyclic graph every entry has a root |
| Checkout.Partition | crates/morrows-cli/src/memory.rs:318-337 | the loop over the entries writes the planned files or stops with the first error |
| Checkout.PlanErrorMeaning | crates/morrows-cli/src/memory.rs:318-337 | a failing checkout reports what is wrong with the first entry at fault: no root and why, or the root of an earlier current entry |
| Checkout.HistoryDoesNotMatter | crates/morrows-cli/src/memory.rs:320-326 | whether a checkout succeeds, and its current documents, do not depend on the history flag |
| Checkout.CheckoutSucceedsIff | crates/morrows-cli/src/memory.rs:318-337 | for unique ids in a sound graph the partition succeeds if and only if no two entries replace the same one |
| Checkout.CheckoutPartition | crates/morrows-cli/src/memory.rs:318-337 | on success document keys are exactly the lineage roots, each document descends from its key, every lineage is a single path, and each entry is in exactly one of current and (when asked for) history |
| Checkout.PlannedHasNoFork | crates/morrows-cli/src/memory.rs:318-337 | success alone forces replacement to be injective and every root to be a key, by counting keys against unreplaced ids |
| Checkout.EverythingShownIff | crates/morrows-cli/src/memory.rs:318-337 | a successful checkout shows every lineage if and only if the graph is acyclic |
| Checkout.CycleIsSilent | crates/morrows-cli/src/memory.rs:319-331 | two entries that replace each other yield an empty checkout and no error |
| Checkout.RefreshKeepsIdentity | crates/morrows-cli/src/memory.rs:300-337 | when the old listing stays, a refresh keeps every document key; a document changes exactly when its revision was replaced, and then it holds a descendant |
| Checkout.RefreshSucceeds | crates/morrows-cli/src/memory.rs:318-337 | a listing extended by new documents and by at most one same-scope revision of each current entry stays sound and can be checked out |
| Checkout.PlanIgnoresOrder | crates/morrows-cli/src/memory.rs:318-337 | on any graph, sound or not, reordering the listing changes neither success nor the files |
| Refresh.ImportOkIff | crates/morrows-cli/src/memory.rs:283-337 | an import goes ahead if and only if the listing can be planned and there is no worktree yet, or it is a refresh of a clean worktree of this repository whose HEAD belongs to the same endpoint and project |
| Refresh.RefusalMeaning | crates/morrows-cli/src/memory.rs:283-309 | which refusal answers a missing or existing checkout, another repository and local changes, and that nothing else does |
| Refresh.HistoryNeverDrops | crates/morrows-cli/src/memory.rs:281-359 | over any sequence of checkouts, refreshes, refusals and aborted merges the worktree's history flag is on exactly when some merged import had been asked for it, so it never goes off |
| Refresh.HistoryFlagIff | crates/morrows-cli/src/memory.rs:300-317 | an import has the history flag if and only if it is asked for history or an import merged before it was |
| Refresh.HistoryWrittenIff | crates/morrows-cli/src/memory.rs:300-326 | exactly then it writes every replaced entry of its listing; otherwise it writes no history |
| Refresh.HistoryStaysMaterialized | crates/morrows-cli/src/memory.rs:300-326 | once an import with history has been merged, every later import writes every replaced entry of its listing |
| Refresh.NextKeepsHistoryIff | crates/morrows-cli/src/memory.rs:300-345 | after an import that wrote history, the next plain one still writes it if and only if the first was merged or the worktree had history already |
| Refresh.AbortedMergeForgetsHistory | crates/morrows-cli/src/memory.rs:300-345 | a checkout, a local retitling, a refresh with history that brings another new title for the same file and whose merge is aborted, a plain refresh: the last import writes no history |
| Discovery.PageFromExtraRow | crates/morrows-core/src/discovery.rs:15-22 | the page is a prefix of at most `limit` rows and drops nothing but an extra row; a next offset exists if and only if there was one, and continues right after the last item; on what a query read it is the listing's page |
| Discovery.PageOf | crates/morrows-core/src/discovery.rs:13-22 | read through a LIMIT+1 query, the page is the cut of the listing at the offset, and the next offset tells whether rows remain |
| Discovery.PageExtends | crates/morrows-core/src/discovery.rs:13-22 | a page at the end of a prefix extends it without gap or overlap, to the next offset or to the end |
| Fetch.FetchProject | crates/morrows-cli/src/memory.rs:211-256 | over any server the loop ends; what it returns has distinct ids, all shared and in scope |
| Fetch.FetchOkIff | crates/morrows-cli/src/memory.rs:211-256 | over a server that may answer anything, the loop succeeds with these entries if and only if it is led through increasing offsets to a last page under one head, and the pages together are these entries, distinct and in scope |
| Fetch.FetchErrorMeaning | crates/morrows-cli/src/memory.rs:211-256 | a failing fetch reports what is wrong with the call at which it stops |
| Fetch.ExpectedMeaning | crates/morrows-cli/src/memory.rs:238-243 | in scope means shared, and of the organization or of this very project |
| Fetch.AcceptAppends | crates/morrows-cli/src/memory.rs:237-248 | an accepted page is appended whole and in order, and none of it had been seen |
| Fetch.SameHeadSameWorld | crates/morrows-server/src/mcp.rs:1323-1349 | when writes install fresh heads, a head seen at two moments was there at every moment between |
| Fetch.SteadyFetchIsSnapshot | crates/morrows-cli/src/memory.rs:211-256 | if the listing only grows between moments with the same head, a successful fetch is exactly the listing its last page was read from, under the head it started with |
| Fetch.FetchIsSnapshot | crates/morrows-cli/src/memory.rs:211-256 | when project writes install fresh heads and organization rows stay fixed, a successful fetch is exactly the ordered listing of one head, the one current at its start |
| Fetch.FreshOrInsertFetchIsSnapshot | crates/morrows-cli/src/memory.rs:211-256 | writes with a fresh head may change any rows and all other writes, organization rows included, may insert: a successful fetch is still the listing of the moment of its last page |
| Fetch.FetchShowsListingIff | crates/morrows-cli/src/memory.rs:211-256 | for every history of the stores a successful fetch has a last call, and it returned exactly the entries listed then, as a set, if and only if every returned entry was still listed |
| FetchedCheckout.CheckoutOfFetch | crates/morrows-cli/src/memory.rs:211-337 | under that condition a checkout of the fetched entries succeeds if and only if one of the listing does, and plans the same files |
| Fetch.RemovalBreaksFetch | crates/morrows-cli/src/memory.rs:225-254 | an organization row deleted between two calls, under an unchanged head and a fixed order, makes a fetch succeed with entries that were never the listing |
| Fetch.InsertOnlyFetchIsSnapshot | crates/morrows-cli/src/memory.rs:211-256 | while writers only insert, whatever the heads, a successful fetch is exactly the listing of the moment of its last page |
| Fetch.AheadNeverSucceeds | crates/morrows-cli/src/memory.rs:241-247 | while the listing only grows under one head, an entry already taken that has moved ahead of the reader makes the fetch fail, however the rest of it goes |
| Fetch.QuietFetchSucceeds | crates/morrows-cli/src/memory.rs:211-256 | with no writer a well-scoped listing is fetched, and whole |
| Worktree.TreeHasDoc | crates/morrows-cli/src/memory.rs:421-432 | a document directory has exactly the files of the entry under its key |
| Worktree.ImportKeepsEntries | crates/morrows-cli/src/memory.rs:421-432 | title, metadata and content read back from the files are the entry's; exactly one of content.md and content.json exists |
| Worktree.MetadataIsFaithful | crates/morrows-cli/src/memory.rs:424-426 | records with equal metadata files are equal but for their content, so an import loses no field |
| GitGraph.Bare.UpdateRef | crates/morrows-cli/src/memory.rs:412 | the ref moves only from the expected value; a stale compare-and-swap leaves all refs alone |
| GitGraph.Bare.ImportCommit | crates/morrows-cli/src/memory.rs:382-419 | an unchanged tree returns the old tip; otherwise one commit on top of the tip that was read, or an error and no change |
| GitGraph.ImportExtendsOrKeeps | crates/morrows-cli/src/memory.rs:382-419 | in every reachable state an import fails if and only if its tree is new and the ref has moved; otherwise it returns the tip it had read or one import commit on top of the tip, and it touches no other project |
| GitGraph.StepKeepsInv | crates/morrows-cli/src/memory.rs:382-419 | every step of any process keeps the chains linear and keeps all import ancestors of known commits on their project's chain |
| GitGraph.ImportsAreLinearAndIsolated | crates/morrows-cli/src/memory.rs:379-419 | in every run each import ref is a line of its own project's imports with differing neighbours, and no commit is below two projects' refs |
| GitGraph.MergeBaseIsLatestImport | crates/morrows-cli/src/memory.rs:107-111 | the merge base of a commit and the import ref is unique and is the latest import the commit contains; without one there is no merge base |
| GitGraph.MergeBaseNeverMoves | crates/morrows-cli/src/memory.rs:107-111 | later imports and commits never change the merge base of a given commit |
| Publish.PublishOkIff | crates/morrows-cli/src/memory.rs:107-187 | a commit is published if and only if its project file names a project and this endpoint, an import is merged into it, the metadata is the import's or a bare draft of a document the import lacks, a non-draft is shared in this project, and there are a title and exactly one readable content file; the request then carries what the commit holds |
| Publish.OtherEndpointRefused | crates/morrows-cli/src/memory.rs:184-187 | a commit checked out from another server never yields a request |
| Publish.PublishNamesTheImportedRevision | crates/morrows-cli/src/memory.rs:107-182 | a request sets exactly one of new id and superseded id; it supersedes exactly when the latest merged import has the document, and then the revision recorded there |
| Publish.PublishRetryIsIdentical | crates/morrows-cli/src/memory.rs:104-182 | retrying a commit at any later state of the repository builds the same request or the same error |
| Publish.CheckoutThenPublish | crates/morrows-cli/src/memory.rs:107-182 | publishing an untouched import reproduces title and content of the server's entry and supersedes exactly it |
| Publish.EditThenPublish | crates/morrows-cli/src/memory.rs:104-182 | checkout, edit, commit, publish: the request carries the edited title and content and the import's head, and supersedes the revision recorded in the import |
| Publish.DraftThenPublish | crates/morrows-cli/src/memory.rs:104-182 | a committed new directory with a bare draft is published under its own id and supersedes nothing |
| OAuthBrowser.Client.SavedSession | web/src/api.ts:23-44 | returns the stored session or moves the tab's own credentials into an empty record; an unusable record is removed |
| OAuthBrowser.Client.GetToken | web/src/api.ts:55-61 | a request gets the session's access token, or none without a session |
| OAuthBrowser.Client.Forget | web/src/api.ts:63-75 | logout empties the record and the tab's own keys |
| OAuthBrowser.Client.SetSession | web/src/api.ts:77-89 | stores a complete session, and treats an incomplete one as a logout |
| OAuthBrowser.Client.StartRefresh | web/src/api.ts:128-141 | a second call in a tab joins the one under way |
| OAuthBrowser.Client.EnterRefresh | web/src/api.ts:91-95 | inside the lock: no session gives the empty token, a token renewed meanwhile is returned, otherwise the call posts |
| OAuthBrowser.Client.FinishRefresh | web/src/api.ts:107-126 | what each reply does to the record, including a record that changed while the call was pending |
| OAuthSessions.ReadMeaning | web/src/api.ts:23-44 | reading finds the record if it is usable, else the tab's own session, which becomes the record, else nothing, and then the record is empty |
| OAuthSessions.TakeMeaning | web/src/api.ts:55-61 | a request carries the access token of the session that reading finds |
| OAuthSessions.SaveMeaning | web/src/api.ts:77-89 | after saving a complete session every tab finds it; an incomplete one signs the tab out |
| OAuthSessions.CallsJoin | web/src/api.ts:128-129 | overlapping calls of one tab are one call, and the first decides what is rejected |
| OAuthSessions.EnterMeaning | web/src/api.ts:91-95 | in every state a call posts the refresh token of the session it finds if and only if that session's access token is the rejected one or missing, and otherwise resolves to what it finds |
| OAuthSessions.TokensMissing | web/src/api.ts:117 | a response without both tokens changes nothing and resolves to no token |
| OAuthProtocol.StepKeepsInv | web/src/api.ts:91-141 | every step keeps the stored token unspent unless its rotation is on its way back to the lock holder |
| OAuthProtocol.NoReplay | web/src/api.ts:91-141 | with locks and no token saved twice, no interleaving of tabs, logins and logouts posts a rotated token |
| OAuthProtocol.NoReplayIff | web/src/api.ts:91-141 | all runs are free of replays if and only if the browser has locks and no token is saved in two places initially |
| OAuthProtocol.UnlockedReplays | web/src/api.ts:133-136 | without locks two tabs post one token and the server sees a replay |
| OAuthProtocol.SharedTokenReplays | web/src/api.ts:32-43 | a token that two tabs keep, or a tab and the record, is posted again after it was rotated |
| OAuthSessions.StoredTokensMatch | web/src/api.ts:77-89 | in every run saved access and refresh tokens come from the same issuance |
| OAuthSessions.AtMostOneRotation | web/src/api.ts:91-95 | while no tab keeps a usable session without an access token, any number of calls in any tabs that reject one access token cause at most one rotation |
| OAuthSessions.AtMostOneRotationIff | web/src/api.ts:91-95 | all runs rotate at most once for each rejected token if and only if no tab keeps a usable session without an access token to begin with |
| OAuthSessions.LaterCallsReuse | web/src/api.ts:91-95 | under the same condition a call that rejects a token rotated before returns the stored one, or nothing after a logout, and posts nothing |
| OAuthSessions.LaterCallsReuseIff | web/src/api.ts:91-95 | in all runs such calls post nothing if and only if no tab keeps a usable session without an access token to begin with |
| OAuthSessions.UndisturbedRefresh | web/src/api.ts:91-126 | without a login or logout in between, a rotation is stored for the same client and returned, a 400 or 401 signs out, any other failure keeps the session |
| OAuthSessions.LogoutStays | web/src/api.ts:63-75 | once signed out everywhere, no run without a login brings a session back, whatever refreshes are pending |
| OAuthSessions.LogoutStaysIff | web/src/api.ts:32-44 | a logout stays in force in all runs without a login if and only if no other tab keeps a usable session of its own |
| OAuthSessions.StaleRefreshNeverWrites | web/src/api.ts:118-122 | a refresh that ends after a logout or a new login, however late and in whatever tab, does not write its tokens, and resolves to the token of the session that is there now or to none |
| OAuthSessions.PresentedAgainOnlyAfterFailure | web/src/api.ts:91-126 | a token posted twice had met a server that failed to process it |
| OAuthSessions.NoFailureNoRepeat | web/src/api.ts:91-126 | a run in which the server answers every refresh with tokens or a 400 or 401 posts no token twice |
| OAuthSessions.PresentedAgainIff | web/src/api.ts:107-116 | in every reachable state an answered refresh leaves its token saved, and the next rejected request of the tab posts it again, if and only if the reply was neither tokens nor a 400 or 401 |
| Monitor.PollOnce | crates/morrows-server/src/launch.rs:915-1017 | one poll performs the specified effects for every reply of store and runtime |
| Monitor.PollMeaning | crates/morrows-server/src/launch.rs:903-1018 | every poll that the loop reaches adds exactly what its replies call for: the agent is stopped, the launch marked, the capability revoked, the attempt finished and the loop ended if and only if the poll and the earlier reports say so |
| Monitor.StopsAgentIff | crates/morrows-server/src/launch.rs:917-933 | the agent is stopped if and only if the poll that ends the loop has a stop request, and then once, right before the last revoke and finish |
| Monitor.FlagMeaning | crates/morrows-server/src/launch.rs:938-952 | the launch counts as running exactly once a report has been marked, or met a conflict with an attempt that runs |
| Monitor.FinishMeaning | crates/morrows-server/src/launch.rs:995-1015 | which session reference, exit code and error text a final report records |
| Monitor.MonitorAgent | crates/morrows-server/src/launch.rs:903-1018 | the loop's effects and outcome over any stretch of replies |
| Monitor.MonitorRefinesFirstDecisive | crates/morrows-server/src/launch.rs:903-1018 | a successful return performs one finish, last and right after a revoke, with the verdict of the earliest stop request, missing runtime or terminal status; with a working store it returns exactly when there is one |
| Monitor.FinishErrorIff | crates/morrows-server/src/launch.rs:1001-1012 | the recorded error is None if and only if the status is `succeeded`, or `exited` with code 0 |
| Monitor.MarkedOnce | crates/morrows-server/src/launch.rs:935-953 | when marking works, a launch is marked running at most once over the whole run |
| Monitor.TransientsAreInvisible | crates/morrows-server/src/launch.rs:980-986 | deleting all unreachable-runtime polls changes no effect and no outcome |
| Monitor.VerdictsAgreeIff | crates/morrows-server/src/launch.rs:903-1018 | two decisive polls of one sticky runtime give the same exit code and error exactly when the stop flag is the same |
| Monitor.CrashTransparentIff | crates/morrows-server/src/launch.rs:1020-1083 | the recovered monitor records the uninterrupted monitor's exit code and error if and only if no stop request came in between |
| Monitor.CrashCanShow | crates/morrows-server/src/launch.rs:917-932 | a runtime that has succeeded and a stop request after the first poll: the first monitor records success, the recovered one a cancellation |
| Sweep.CleanupLoop | crates/morrows-server/src/launch.rs:352-413 | either cleanup loop performs the specified actions for every reply |
| Sweep.CleanupIsGuarded | crates/morrows-server/src/launch.rs:352-413 | in every pass a binding is looked up only after a negative launch check, a capability revoked only after that, a cleanup made only after a revoke that worked, and a completion recorded only after a cleanup that returned true, each directly and of the same run |
| Sweep.CleanedIffReady | crates/morrows-server/src/launch.rs:352-413 | every check, revoke, cleanup and record of a run happens if and only if that run's own answers call for it; none is skipped |
| Sweep.PassMeaning | crates/morrows-server/src/launch.rs:352-413 | the same for a whole pass: pending runs are cleaned without finishing, completed ones finished, and a list that cannot be read keeps nothing from the other |
| Sweep.LoopInOrder | crates/morrows-server/src/launch.rs:352-413 | runs are taken in the order of their list |
| Sweep.PassInOrder | crates/morrows-server/src/launch.rs:352-413 | the pending runs come before the completed ones |
| Sweep.RunsAreIsolated | crates/morrows-server/src/launch.rs:352-413 | the actions on one run are those of a loop that lists only that run |
| Sweep.SameRepliesSameHandling | crates/morrows-server/src/launch.rs:352-413 | two passes that answer alike for a run treat it alike, whatever fails for others |
| ProviderOutput.FindIsFirstHeld | crates/morrows-server/src/launch.rs:1995-2046 | the recursive search returns a text if and only if it is held at the first place of the document that holds one, an outer object before its parts |
| ProviderOutput.FindNoneIff | crates/morrows-server/src/launch.rs:1995-2046 | it returns nothing if and only if nothing is held at any depth |
| ProviderOutput.OwnSessionMeaning | crates/morrows-server/src/launch.rs:1997-2004 | of an object's own members the first nonblank text among thread, session and conversation counts |
| ProviderOutput.OwnErrorMeaning | crates/morrows-server/src/launch.rs:2026-2040 | the message of an error event counts before that of an error member |
| ProviderOutput.FirstHeldUnique | crates/morrows-server/src/launch.rs:1995-2010 | the first place, and so the result, is unique |
| ProviderOutput.ExtractSession | crates/morrows-server/src/launch.rs:1983-1993 | the session reference is that of the earliest line that has one |
| ProviderOutput.ExtractError | crates/morrows-server/src/launch.rs:2012-2022 | the error message is that of the latest line that has one |
| JsonPointer.UnescapeEscape | crates/morrows-core/src/completion.rs:76 | unescaping by RFC 6901 undoes the two replacements, for every member name |
| JsonPointer.IndexOfDecimal | crates/morrows-core/src/completion.rs:70 | a printed index is a valid RFC 6901 array index and denotes itself |
| Completion.CompletionCriteria | crates/morrows-core/src/completion.rs:63-95 | the loop over the two keys collects the specified criteria in order |
| Completion.PathsResolve | crates/morrows-core/src/completion.rs:60-95 | evaluating an emitted path on the same constraints yields exactly its requirement |
| Completion.PathsAreDistinct | crates/morrows-core/src/completion.rs:60-95 | no two criteria have the same path |
| Completion.CriteriaCoverExactly | crates/morrows-core/src/completion.rs:60-95 | the decoded paths are exactly the addresses of the array items, object members and nonblank scalars under the two keys |
| Completion.CriteriaKeepOrder | crates/morrows-core/src/completion.rs:62-95 | the criteria of the two keys follow each other, items in the order of the list and members as they are listed |
| Acceptance.ValidateAcceptance | crates/morrows-core/src/acceptance.rs:60-122 | accepts exactly the lists of at most 100 acceptable criteria with distinct ids, and otherwise explains the first criterion at fault |
| Acceptance.LegacyImportKeepsCriteria | crates/morrows-core/src/acceptance.rs:132-152 | the import keeps the criteria and their order under distinct ids, self-attested and without further demands, and each legacy path leads to what its requirement was printed from |
| Acceptance.ImportPassesIff | crates/morrows-core/src/acceptance.rs:60-152 | imported criteria are refused by validation unless there are none; without their paths they pass if and only if there are at most 100 and no declared text is blank |
| Scheduler.DispatchRole | crates/morrows-server/src/dispatch.rs:185-199 | a firing makes at least one and at most eight calls, every one before the last dispatches something, and fewer than eight end with one that does not |
| Scheduler.FiringMeaning | crates/morrows-server/src/dispatch.rs:176-199 | every firing starts in a look at an enabled setting and makes the calls that its replies lead to |
| Scheduler.SchedulerLoop | crates/morrows-server/src/dispatch.rs:164-208 | the firings of any number of ticks |
| Scheduler.FlattenAt | crates/morrows-server/src/dispatch.rs:167-176 | every setting of every readable tick is looked at once, in order |
| Scheduler.NegativeNeverDue | crates/morrows-server/src/dispatch.rs:177-180 | a role with a negative interval does not fire again once it has run, since the cast makes the interval huge |
| Scheduler.RateBound | crates/morrows-server/src/dispatch.rs:164-208 | for a fixed interval of at least a second, firings of any run are that far apart, so a window of T seconds has at most T/I+1 of them and eight dispatch calls each |
| Scheduler.EnabledLookFires | crates/morrows-server/src/dispatch.rs:176-184 | after every look at an enabled role it has fired in that look or less than its interval before |
| Scheduler.ChooseIff | crates/morrows-server/src/dispatch.rs:119-135 | a profile is chosen if and only if it is the only enabled default, or there is none and it is the only enabled profile |
| Scheduler.ChooseIgnoresOrder | crates/morrows-server/src/dispatch.rs:119-135 | permuting the profile list does not change the choice |
| MemoryPanel.Component.ResetProjectMemoryView | web/src/App.tsx:1389-1397 | empties the panel and makes every request under way stale |
| MemoryPanel.Component.SelectTask | web/src/App.tsx:1399-1403 | leaving a project empties the panel and makes its requests stale |
| MemoryPanel.Component.OpenProject | web/src/App.tsx:1411-1419 | opening asks for the first page under a new ticket |
| MemoryPanel.Component.LoadMore | web/src/App.tsx:1433-1442 | sends one request for the next offset, or nothing when there is none or one is under way |
| MemoryPanel.Component.Respond | web/src/App.tsx:1420-1451 | a stale answer changes nothing; a current one replaces or appends, or reports the failure |
| MemoryPanel.StepKeepsInv | web/src/App.tsx:1389-1451 | every handler and every answer keeps the panel's invariant |
| MemoryPanel.PanelHoldsPrefix | web/src/App.tsx:1389-1451 | in every interleaving the list is the prefix up to the next offset of the project last opened, without gap, repetition or foreign item, and the whole list once loading ended; the panel says loading or appending exactly while its own request is under way |
| MemoryPanel.ArrivalMeaning | web/src/App.tsx:1411-1451 | a page that arrives in time extends the prefix by up to thirty items and ends loading; a failure is reported and loses nothing |
| TaskTable.CompareIsStrictTotal | web/src/App.tsx:955-966 | the comparator is antisymmetric and transitive and separates rows of different places |
| TaskTable.ViewIsUnique | web/src/App.tsx:915-968 | the view is the only sorted arrangement of the matching rows; it shows each of them once and no other, in the chosen direction, rows without a value last in both directions and ties in source order |
| TaskTable.StatusMeaning | web/src/App.tsx:567-580 | which rows have which status, for each of the seven |
| TaskTable.CountRows | web/src/App.tsx:900-913 | each status count is the number of rows its filter shows, and the seven counts add up to the total |

## Left out

- Everything inside the store crate: claims, leases, gates, intake, handoffs; its replies are arbitrary inputs.
- HTTP routes, MCP tool wrappers, serde, clap, schema definitions, process and file handling, temporary directories.
- Git beyond commits and refs: textual merges and their conflicts (a merge is an arbitrary commit with two parents), hash collisions, index locking, symbolic links and other entries that are not regular files, and people who forge import commits.
- The commit's author and time are arbitrary; the text of the README file inside a worktree is shortened, since nothing reads it.
- The publication command's `require_native_publication` and the sending of the request; the model ends with the request built.
- `setMorrowsOAuthToken` with a nonempty token, which nothing in `web/src` calls, and the operator token.
- OAuthBrowser.Client.GetToken: access-only tokens that versions before refresh grants left in a tab.
- The single retry in `api` after a 401: straight-line code around the refresh call.
- The server's OAuth module: tokens are fresh values, a rotated token used again is a replay.
- Fetch.SteadyFetchIsSnapshot: for the order of the returned entries the condition is sufficient only; `FetchShowsListingIff` is exact for the entries.
- OAuthSessions.StaleRefreshNeverWrites: reading the record may still move the tab's own legacy credentials into an empty one, as `savedOAuthSession` always does.
- Monitor.MonitorAgent: takes the session reference, the agent error and the trimmed stderr as inputs; `ProviderOutput` models the search, joining head and tail and splitting into lines are not modelled.
- Monitor.CrashTransparentIff: recovery's lookups of profile, executor and runtime binding are taken to succeed.
- Sweep.CleanupLoop: the sweep's provisioning, renewal, revocation of interrupted runs and begin-cleanup loops, each a single call per run.
- Scheduler.SchedulerLoop: `auto_launch_assignment` is modelled as the choice of the profile; its checks before and the enqueueing after it are left out.
- MemoryPanel.PanelHoldsPrefix: each project's list is fixed while it is read; the selected entry is not modelled.
- TaskTable.ViewIsUnique: columns, collation and search text are parameters; the comparator is a total order when dates are valid and each column holds numbers only or texts only.
- `CompleteRunRequest::result_with_completion`, enum and string round trips, argument builders: easy.
