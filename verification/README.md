# Verification of the fail-closed protocols

The repository lets an agent drive desktop applications and browser tabs, and is built so that
stale evidence is never acted on and nothing is promoted early. This project models the parts that
carry that promise and proves what each of them keeps, for every input, every answer of the other
side and every interleaving:

* **Release publication** (`Versions`, `DigestFields`, `ReleaseModel`, `Publication`, `Recovery`,
  `Publisher`, `Success`, `ReleaseChecks`, `TagPeel`):
  draft, public prerelease, byte verification, stable and Latest, against a remote whose every
  answer may be stale or wrong. `Gateway` is the remote together with a log of all calls. Safety
  is stated about that log for arbitrary answers; crash recovery is stated for an `honest` gateway
  whose release nobody else changes, with an atomic upload.
* **Pairing cache and native port** (`PairingCache`, `NativePorts`): the asynchronous cache over
  session storage and the port generations of the browser extension. The code between two awaits
  is one method; the worlds around the classes let those pieces, store writes and change events
  interleave in any order that keeps writes and events in their own order.
* **Browser evidence** (`BrowserEvidence`, `BrowserFence`, `TabBridge`, `Navigation`): the
  single-use snapshot evidence in front of every mutation, the continuation chain above it, the
  refs of the content script, and one navigation attempt.
* **Line reader and message framing** (`LineReader`, `Framing`).
* **Indicator probe** (`ZOrder`, `RunDetector`, `Lifecycle`, `Bands`): the z-order walk, the
  detector of stable visits to a monitor, the lifecycle verdict and the band geometry.
* **Archives** (`ArchivePaths`, `Extraction`, `TreeDigest`): admitted paths, bounded extraction
  and the tree digest.

Classes and loops of the source are classes and loops here. Their methods are proved against a
specification that does not mention the loop: a regular language, a line split, a chain of
windows, the list of eligible elements, or a function of the old state about which lemmas are
proved over all runs.

Where a method is proved against a function that is written like it, lemmas say what that function
means without it: versions by their three numbers, a response by its fields, a navigation by the
operations in its log, a cache by the answers its callers get.

UTF-8 validity, SHA-256, JSON encoding and Unicode folding are functions given as parameters. So
are the two ways of reading a digest field, of which `DigestFields` has the program's own. What is assumed about them is written where it is used: `Json.Faithful` for
a JSON library whose decoder undoes its encoder, and the absence of a collision on two particular
encodings in `TreeDigest.EqualTreeDigests`.

## Where the code does not meet the promise

Four expected properties are false of the code in a corner. Each has its exact condition and a
failing case:

* The z-order walk answers false when the target is itself a visible indicator window, even if all
  windows form a chain that ends at the target (`ZOrder.TargetScopedBlock`,
  `ZOrder.VisibleTargetIsRefused`).
* The pairing cache is coherent at quiescence in every run exactly when session storage did not
  start with a malformed value: the write that removes such a value installs nothing in the cache
  and can overtake the code behind a `save` (`PairingCache.CoherentAtQuiescence`,
  `PairingCache.ScrubOvertakesSave`).
* Matching the quadratic opacity profile implies the monotonicity check exactly when there are
  bands, and there is one band at most or the outer opacity is at least -1
  (`Bands.ProfileDecidesMonotonicity`, `Bands.ProfileMayRise`).
* That the tab was updated if and only if a dispatch or `navigation_outcome_unknown` is reported
  holds of an attempt exactly when its last call neither throws that code up to the invalidation
  nor throws another one after the update (`Navigation.UpdatedIffReported`). A content script may
  answer the invalidation with that code (`Navigation.InvalidationMayMislead`), and what the last
  check throws is not caught (`Navigation.LastCheckMayMislead`).

A fifth point is the meaning of the cleanup form: the first absent sample must not have converged
(`Lifecycle.Cleaned`); when a sample without windows cannot converge this is the plain form
not-converged\* converged+ absent+ (`Lifecycle.CleanedIsPlain`).

## Model

| member | source | states |
|---|---|---|
| Publisher.Publish | scripts/publish_verified_release.py:134-293 | Whatever the gateway answers, the log is safe under one commitment, to the release its first read identified and to the asset identities it froze: every entry is justified by what precedes it, a resuming gateway is never asked to upload, and success means that the public bytes of those same assets were verified and that the log ends with three reads proving that same release published with exactly them. Wrong arguments and a wrong bundle are refused without a single call. Unless somebody interferes, the world goes through the states of the plan only |
| Publisher.PublishOrResume | scripts/publish_verified_release.py:236-293 | In the undisturbed world a run from any admissible state (empty or complete draft, complete prerelease, complete stable) succeeds and reaches its one destination; every state after every call, where the process may be killed, is admissible with the same destination; a run that starts there uploads and patches nothing |
| Publisher.PlanReachesFinal | scripts/publish_verified_release.py:236-274 | Every state a run passes through leads to the same final state, and from the final state no step is needed |
| Publisher.AdmissibleIsFeasible | scripts/publish_verified_release.py:201-293 | From an admissible state each check of the run passes, before and after each mutation |
| Publisher.Fresh | scripts/publish_verified_release.py:201-215 | Two reads and no mutation; success means release, tag and source identity match and, where asked for, the content and the frozen asset identities |
| Publisher.LatestGuard | scripts/publish_verified_release.py:217-234 | One read and no mutation; success means Latest is admissible for the component, and for the native one that its version is not above the own (`Versions.NotNewerByNumbers`); a Latest that is admissible is never refused |
| Publisher.EnsureAssets | scripts/publish_verified_release.py:236-244 | Upload into an empty release only, as a justified call of the given release; the frozen identities are those of a read of that release with complete content, after which nothing was uploaded; complete assets are reused without an upload |
| Publisher.Stage | scripts/publish_verified_release.py:246-253 | The log stays safe for the given release and frozen assets, so a staging patch names that release and follows a read of exactly those assets; nothing is uploaded; in the undisturbed world the patch is the only change |
| Publisher.VerifyPublicBytes | scripts/publish_verified_release.py:255-264 | Success means the log ends with a read of the public release with the frozen assets followed by a matching download of each of them; honest bytes are never refused |
| Publisher.Promote | scripts/publish_verified_release.py:266-274 | The log stays safe for the given release and frozen assets, so a promotion patch names that release, and right after the verified bytes of those assets come a fresh read of them, an admissible Latest, and the patch; it is left out if nothing is to change; nothing is uploaded |
| Publisher.Confirm | scripts/publish_verified_release.py:275-293 | Success means the last three reads show the release stable with the frozen assets and Latest as it must be; reads only |
| Publication.SafeAt | scripts/publish_verified_release.py:236-274 | In a safe log every mutation, wherever it stands, is justified by the reads directly before it, for the release and the frozen assets of the whole run |
| Publication.OneReleaseOneSet | scripts/publish_verified_release.py:171-174 | Every patch of a safe log names the release that the first read identified, and follows the read of that release that froze the assets |
| Publication.NoUploadAfterPatch | scripts/publish_verified_release.py:236-253 | Once a patch was sent nothing is uploaded |
| Publication.StaysFrozen | scripts/publish_verified_release.py:213-214 | What was frozen stays frozen while nothing is uploaded |
| Publication.MutationsAreFew | scripts/publish_verified_release.py:236-274 | At most one upload, one staging patch and one promotion patch in a run |
| Publication.PromotionNeverReplacesNewer | scripts/publish_verified_release.py:217-234 | A native promotion directly follows a reading of Latest; that Latest, if any, has a tag with three numbers that are, compared one after the other, not above the three numbers of the own tag |
| Publication.PromotionOfPrintedVersion | scripts/publish_verified_release.py:128-131 | The same for tags written as `v` and three decimal numbers: the promoted version is at least the one it replaces |
| Success.SuccessMeans | scripts/publish_verified_release.py:255-293 | A run that succeeds has downloaded, from the public address of every local file, bytes of its size that hash to its digest; and its last three reads show the release of the given id, tag and source stable, its tag at the source, its assets exactly the local files with their sizes, and Latest stable and right for the component |
| Success.ServedBytesHash | scripts/publish_verified_release.py:255-264 | With the program's reading of digest fields: up to letter case, the hash of the public bytes of every local file is the hash of that file |
| Success.ContentShowsFiles | scripts/publish_verified_release.py:153-163 | Accepted metadata has one asset for each local file, with its size and digest, and no others |
| ReleaseChecks.ArgumentsNameOneVersion | scripts/publish_verified_release.py:139-152 | Accepted arguments: both sources are 40 lower-case hexadecimal digits, and tag, version and native tag of a native publication carry the same version |
| ReleaseChecks.PrintedArgumentsAreAccepted | scripts/publish_verified_release.py:139-152 | Arguments made by printing a version are accepted |
| ReleaseChecks.MutationsFollowReads | scripts/publish_verified_release.py:201-234 | In a safe log the three entries before any mutation read the release of the run (id, tag, source, visibility), its tag at the source, and a Latest that is stable, or absent if native; an upload follows a read without assets |
| ReleaseChecks.FreezeIsExact | scripts/publish_verified_release.py:177-199 | Every asset of the read that froze is a fully uploaded local file with a positive id of its own, at the canonical address or, in a draft, at a temporary one, and its identity is frozen |
| ReleaseChecks.FrozenIsAnAsset | scripts/publish_verified_release.py:177-199 | And nothing else is frozen |
| Versions.NewerIsTotalOrder | scripts/publish_verified_release.py:128-131 | The comparison of versions is irreflexive and transitive, and decides between any two different versions |
| Versions.EarlierNumberDecides | scripts/publish_verified_release.py:128-131 | A larger number outranks any change of the later ones |
| Versions.SemverIsThreeNumbers | scripts/publish_verified_release.py:128-131 | A text is read as a version if and only if it is three non-empty runs of digits with dots between them, and the version is those numbers |
| Versions.TagVersionUndoesPrinting | scripts/publish_verified_release.py:128-131 | Reading a tag undoes printing it |
| Versions.TagsCompareByNumbers | scripts/publish_verified_release.py:128-131 | Two printed tags compare as their numbers do |
| Versions.NotNewerByNumbers | scripts/publish_verified_release.py:229 | Any two tags compare as the numbers they carry do |
| DigestFields.NormalizedIsLowered | scripts/release_integrity.py:68-74 | What a digest field is normalised to is, up to letter case, what the byte verification compares |
| DigestFields.LocalDigestIsNormal | scripts/release_integrity.py:68-74 | The digest the program writes for a local file is normalised to the hash itself |
| Recovery.PlanLeadsToFinal | scripts/publish_verified_release.py:236-274 | Upload, staging and promotion each keep a state admissible and its destination unchanged, and the last one reaches the destination |
| Recovery.FinalIsAtRest | scripts/publish_verified_release.py:266-274 | In the final state nothing is left to upload, to stage or to promote |
| Recovery.FinalIsPublished | scripts/publish_verified_release.py:275-293 | The final state satisfies everything the last look asks for |
| Recovery.ViewIdentities | scripts/publish_verified_release.py:177-199 | The frozen identities of complete assets do not depend on whether the release is a draft at a temporary location or public at its canonical one |
| Recovery.LocationFollowsVisibility | scripts/publish_verified_release.py:183-191 | A draft asset is described at the temporary location, a public one at the canonical one |
| ReleaseModel.ViewKeys | scripts/resume_native_publication.py:177-201 | The identities a resuming gateway compares depend on the stored assets only, not on their transient draft locations |
| ReleaseModel.KeysAreOfAssets | scripts/resume_native_publication.py:177-194 | The identities compared are one for each asset, and exactly those of id, name, size and digest |
| ReleaseModel.Gateway.ReadRelease | scripts/resume_native_publication.py:189-201 | An answer of a resuming gateway is the expected release with assets whose identities hash to the expected value and are the ones remembered from the first answer |
| ReleaseModel.Gateway.Upload | scripts/resume_native_publication.py:203-204 | A resuming gateway refuses and changes nothing |
| TagPeel.TagSha | scripts/publish_verified_release.py:78-86 | A commit is the answer if and only if a path of at most five objects, each a tag of the next, leads from the reference to it |
| TagPeel.FollowedIsPrefix | scripts/publish_verified_release.py:80-85 | There is one way to follow tags: what has been followed is a prefix of any path that ends in a commit |
| PairingCache.CoherentAtQuiescence | browser-extension/chrome/pairing.ts:40-94 | Over all interleavings of loads, saves, clears, failures and change events, a loaded cache equals the store once nothing is pending, if and only if the store did not start malformed |
| PairingCache.ScrubOvertakesSave | browser-extension/chrome/pairing.ts:118-126 | The run in which the removal of a malformed value overtakes a save and leaves the cache telling of a pairing that storage does not hold |
| PairingCache.TrackingKept | browser-extension/chrome/pairing.ts:40-94 | Every step keeps the facts behind coherence: the last completed write and the last event on its way are the stored value, and a value read is the stored one unless an installation is coming or has come |
| PairingCache.NoStaleCommit | browser-extension/chrome/pairing.ts:44-52 | No load ever commits the value it read over a value saved, cleared or notified after the load started |
| PairingCache.RetryReadsItself | browser-extension/chrome/pairing.ts:45-48 | After a generation change a load is answered from the cache, which then decides its promise, or waits for a read of its own that it just started, and never for an existing promise |
| PairingCache.NeverStuck | browser-extension/chrome/pairing.ts:40-60 | In every reachable state with something pending, some pending piece can proceed without a new call |
| PairingCache.LoadsOkKept | browser-extension/chrome/pairing.ts:40-60 | Every step keeps the structure of the pending loads: waits go to later loads only, and the shared promise is one that is still to settle |
| PairingCache.LoadedCacheAnswersStore | browser-extension/chrome/pairing.ts:40-43 | In every run from a store that is not malformed, a load called with nothing pending and a loaded cache is answered at once: with a pairing if and only if the store holds it, and with none if and only if the store is empty |
| PairingCache.UnloadedCacheReadsStore | browser-extension/chrome/pairing.ts:44-60 | If the cache is not loaded, the load reads, commits and answers what the store holds, if nothing else happens meanwhile |
| PairingCache.CommitAnswersRead | browser-extension/chrome/pairing.ts:50-52 | A load that commits caches and answers the value it read |
| PairingCache.JoinedCallSharesPromise | browser-extension/chrome/pairing.ts:42 | A load called while another is shared gets that one's promise and starts nothing |
| PairingCache.OutcomesStay | browser-extension/chrome/pairing.ts:40-60 | A decided promise stays decided in the same way, and a waiting load is decided only by the load it waits for |
| PairingCache.WaitingAnswersTheSame | browser-extension/chrome/pairing.ts:48 | Over any run, once a waiting load is decided, it is decided as the load it waits for |
| PairingCache.AnswersWereStored | browser-extension/chrome/pairing.ts:40-60 | No answer is invented: in every run, whatever a caller is answered was in the store at some time |
| PairingCache.MatchIsStored | browser-extension/chrome/pairing.ts:96-109 | With nothing pending, a request is matched exactly with the stored pairing, and only under its nonce and tab |
| PairingCache.PairingLifecycle.Load | browser-extension/chrome/pairing.ts:40-43 | Answer from the cache, join the shared load, or start one, with the whole new state; what the callers are told is in the lemmas below |
| PairingCache.PairingLifecycle.LoadContinuation | browser-extension/chrome/pairing.ts:44-52 | Commit if the generation is unchanged, otherwise load again, with the whole new state; `CommitAnswersRead` and `RetryReadsItself` say what that answers |
| PairingCache.PairingLifecycle.LoadFinally | browser-extension/chrome/pairing.ts:54-56 | A settled load gives up the shared promise only if it is its own |
| PairingCache.PairingLifecycle.AfterWrite | browser-extension/chrome/pairing.ts:62-74 | A completed save or clear installs its value and a new generation |
| PairingCache.PairingLifecycle.UpdateFromStorage | browser-extension/chrome/pairing.ts:80-94 | A change event installs an absent or valid value and uncaches on a malformed one, always with a new generation |
| NativePorts.InvKept | browser-extension/chrome/entrypoints/background.ts:148-254 | Every step keeps: generations count connects, the current port is the newest, a running clear is for the current generation, and the stored pairing belongs to no later port than the one about to be connected |
| NativePorts.ClearsOnlyItsOwnGeneration | browser-extension/chrome/entrypoints/background.ts:201-214 | In every run, when the queued reaction to a failed port (or the revocation of a navigation) clears the store, it does not clear a pairing saved for a newer port |
| NativePorts.LostPortIsCleared | browser-extension/chrome/entrypoints/background.ts:201-214 | In every run, if there is no port and the store holds a pairing of the current generation, then a clear of that generation is queued, or is running and has not reached the store, or was attempted and failed |
| NativePorts.NothingLeftBehind | browser-extension/chrome/entrypoints/background.ts:201-214 | With no update left, no failed clear and no port, no pairing of the current generation is stored |
| NativePorts.ReactsKept | browser-extension/chrome/entrypoints/background.ts:201-254 | Every step of the world keeps the fact behind that |
| NativePorts.ClearEmptiesStore | browser-extension/chrome/entrypoints/background.ts:206-213 | When the slot of a clear opens with its generation unchanged and its write takes effect, the store is empty |
| NativePorts.RevocationEmptiesStore | browser-extension/chrome/entrypoints/background.ts:281-288 | When the slot of a revocation opens, its write empties the store if its port is the current one, and otherwise it writes nothing |
| NativePorts.BadHandshakeFailsThePort | browser-extension/chrome/entrypoints/background.ts:228-244 | A first message of the current port that is not a valid acknowledgement with the capability drops the port and queues its clear; one that is completes the handshake and queues nothing |
| NativePorts.SavedPairingIsConnected | browser-extension/chrome/entrypoints/background.ts:195-198 | A pairing that is saved gets a port of its own, and is stored under that port's generation |
| NativePorts.OldPortsAreIgnored | browser-extension/chrome/entrypoints/background.ts:201-214 | A disconnect of any port but the newest changes nothing, and a clear queued for an older generation writes nothing |
| NativePorts.HandshakeIsByCurrentPort | browser-extension/chrome/entrypoints/background.ts:224-239 | In every run, a complete handshake means that the newest port itself delivered a valid acknowledgement with the task-owned pairing capability |
| NativePorts.SavedPairingReachesItsPort | browser-extension/chrome/entrypoints/background.ts:195-198 | Between the write of a pairing and the connect it is for, no other queued task touches the store, over any steps of the rest of the world except a clear outside the queue |
| NativePorts.Background.FailCurrentPort | browser-extension/chrome/entrypoints/background.ts:201-214 | Only the current port is failed; its clear is queued with its generation; that it is, and what for, is stated in `LostPortIsCleared` |
| NativePorts.Background.ConnectNative | browser-extension/chrome/entrypoints/background.ts:216-223 | A new port, a new generation, and the handshake still to come |
| NativePorts.Background.OnMessage | browser-extension/chrome/entrypoints/background.ts:224-244 | The first message of the current port decides the handshake; messages of other ports do nothing |
| BrowserFence.EvidenceFence | crates/dcc-cua-browser/src/lib.rs:502-683 | In a fenced log, directly before every mutation call stands the successful snapshot call that published exactly its target, tab and snapshot id, and the latest binding is an exact one to that target; the entries are made by the native calls themselves |
| BrowserFence.CallsArePermitted | crates/dcc-cua-browser/src/lib.rs:711-753 | For every mutation, navigation and dialog call of a fenced log there is an earlier entry that permits it, by its raw content: an authorization of that target, or a bind response with that `target_id`, `binding_quality` "exact", `mutation_allowed` true and no refusal object; and nothing in between rebinds |
| BrowserFence.EvidenceIsInResponse | crates/dcc-cua-browser/src/lib.rs:443-453 | The response directly before a mutation is no refusal in either form and carries the snapshot id that the mutation presents |
| BrowserFence.BindPermitsIffBothFields | crates/dcc-cua-browser/src/lib.rs:711-732 | A bind response leaves mutation allowed if and only if both fields say so |
| BrowserFence.RebindIsRaw | crates/dcc-cua-browser/src/lib.rs:711-732 | An entry changes the binding if and only if it is an authorization or a bind response with a non-empty target and no refusal object, by its raw content |
| BrowserFence.BindingIsEarned | crates/dcc-cua-browser/src/lib.rs:711-732 | Behind every exact binding stands the entry that established it, with no rebinding since |
| BrowserFence.SnapshotIsFenced | crates/dcc-cua-browser/src/lib.rs:429-466 | A snapshot asked for with the session's own expectation keeps the fences: a page for an ancestor role is anchored, at a positive distance, above the requested element in that role |
| BrowserFence.EvidenceIsSingleUse | crates/dcc-cua-browser/src/lib.rs:502-683 | Between two mutations a snapshot was taken |
| BrowserFence.ChainSharesAnchor | crates/dcc-cua-browser/src/lib.rs:395-468 | Every tracked page goes back, page by page without any other call in between, to one that was requested without a continuation; all share one target, tab, snapshot id and anchor, each presents the token before it, and consecutive tokens differ |
| BrowserFence.DistantPagesPresentTheToken | crates/dcc-cua-browser/src/lib.rs:395-468 | A page with a positive anchor distance is published for a continuation request only directly after a tracked page whose token it presented |
| BrowserFence.PublishedPageIsChained | crates/dcc-cua-browser/src/lib.rs:789-838 | A page that passes the session's expectation continues the page the session was waiting to continue |
| BrowserFence.BrowserSession.CallBrowserTool | crates/dcc-cua-browser/src/lib.rs:840-842 | The only way to the backend: no evidence survives to the moment of a call, the fences must permit the call whatever the answer, and the call makes its own entry in the log |
| BrowserFence.BrowserSession.NativeAttempt | crates/dcc-cua-browser/src/lib.rs:840-846 | The evidence is burnt, then the call is made, and the session is left without evidence whatever comes back |
| BrowserFence.BrowserSession.Mutate | crates/dcc-cua-browser/src/lib.rs:502-683 | Dispatched, as one call with the evidence burnt before it, if and only if the current evidence is presented and the request is well formed; otherwise nothing changes and nothing is called; the log stays fenced |
| BrowserFence.BrowserSession.RequireMutationTarget | crates/dcc-cua-browser/src/lib.rs:755-775 | Accepts exactly the current evidence on an exact binding |
| BrowserFence.BrowserSession.Snapshot | crates/dcc-cua-browser/src/lib.rs:395-468 | Dispatched, as one call whose outcome decides the new evidence, if and only if format, arguments, pending continuation and binding allow the request; otherwise nothing changes and nothing is called; the log stays fenced |
| BrowserFence.BrowserSession.SnapshotTab | crates/dcc-cua-browser/src/lib.rs:429-466 | The session's evidence afterwards is that of the response if it was published, and none if it failed or was refused |
| BrowserFence.BrowserSession.Bind | crates/dcc-cua-browser/src/lib.rs:408-428 | A bind succeeds if and only if the raw response names a target and holds no refusal object, and then mutation is allowed if and only if both fields of the response say so; it leaves no evidence, and a failed one keeps the binding; its error for an expected scope is unreachable |
| BrowserFence.BrowserSession.BindAuthorizedExactTarget | crates/dcc-cua-browser/src/lib.rs:314-336 | Succeeds if and only if no other target is bound; clears the evidence; otherwise nothing changes |
| BrowserFence.BrowserSession.NavigateOrDialog | crates/dcc-cua-browser/src/lib.rs:470-500 | Dispatched, as one call with the evidence burnt before it, if and only if the binding is an exact one to the target and the request is well formed; no evidence is asked for; otherwise nothing changes |
| BrowserFence.BrowserSession.Prepare | crates/dcc-cua-browser/src/lib.rs:358-393 | Dispatched, as one call with the evidence burnt before it, if and only if the request is well formed; otherwise nothing changes |
| BrowserFence.BrowserSession.InvalidateSnapshot | crates/dcc-cua-browser/src/lib.rs:354-356 | Burns the evidence and keeps the binding |
| BrowserEvidence.ValidatedPage | crates/dcc-cua-browser/src/lib.rs:1089-1259 | A validated page carries the expected target and tab, its ids agree, a continued page keeps snapshot id and anchor and rotates the token, and an initial page has a distant anchor |
| BrowserEvidence.ValidationIsExact | crates/dcc-cua-browser/src/lib.rs:1089-1259 | A page is validated for an expectation if and only if the raw fields of the response tell of exactly that page: status, target, tab, format, ids, scope, anchor, and a new token only where more is to come |
| BrowserEvidence.UntrackedIsExact | crates/dcc-cua-browser/src/lib.rs:1089-1259 | A continuation that is not tracked passes if and only if it is a successful page of the tab without a distant anchor, and is never tracked |
| BrowserEvidence.ContinuationIsPlain | crates/dcc-cua-browser/src/lib.rs:801-837 | A session that waits for a continuation expects the next page if and only if the request is a plain one that presents the pending token for the same tab |
| BrowserEvidence.IdBesideSnapshot | crates/dcc-cua-browser/src/lib.rs:973-979 | The snapshot id is the field beside the snapshot, and the one inside it only where that is no text |
| BrowserEvidence.DistantAnchorIsTracked | crates/dcc-cua-browser/src/lib.rs:1151-1185 | Where a scope is expected, a page with a distant anchor passes only as a tracked page |
| BrowserEvidence.BindHasNoExpectation | crates/dcc-cua-browser/src/lib.rs:789-838 | A request without a target never has an expectation, so the bind branch cannot meet a validated scope |
| TabBridge.AdmissionsAreSeparated | browser-extension/chrome/entrypoints/tab-bridge.ts:187-204 | In every run, of two admitted refs the later one directly follows a snapshot and belongs to a later generation |
| TabBridge.GenerationsGrow | browser-extension/chrome/entrypoints/tab-bridge.ts:125-128 | Generations only grow along a run |
| TabBridge.Bridge.SemanticSnapshot | browser-extension/chrome/entrypoints/tab-bridge.ts:125-185 | The refs are the first eligible candidates in document order, numbered in the new generation, and exactly those are live; `complete` holds if and only if nothing was cut off, and then all eligible candidates are listed |
| TabBridge.Bridge.Scan | browser-extension/chrome/entrypoints/tab-bridge.ts:146-172 | The scanning loop lists the first eligible ones of its window, and is short of the maximum if and only if the window is |
| TabBridge.ScanListsFirst | browser-extension/chrome/entrypoints/tab-bridge.ts:150-172 | Wherever the scan stops, it has listed the first eligible candidates, and all of them if the list is not full |
| TabBridge.Bridge.ResolveRef | browser-extension/chrome/entrypoints/tab-bridge.ts:187-204 | A ref is admitted if and only if it is live, of the current snapshot and document, and its element still is what it was; admission burns all refs, refusal changes nothing |
| TabBridge.ListedRefIsCurrent | browser-extension/chrome/entrypoints/tab-bridge.ts:187-204 | A ref of the latest snapshot is good: if its element is still connected, in the viewport and unchanged, each of its listed actions is admitted, on that very element |
| TabBridge.ChangedElementIsStale | browser-extension/chrome/entrypoints/tab-bridge.ts:193-200 | No ref is good for an element that is gone, out of the viewport, without the action, or has another name or role than the snapshot listed |
| TabBridge.EligibleAreListed | browser-extension/chrome/entrypoints/tab-bridge.ts:150-172 | A list without limits holds every candidate with an action and a visibility, with its identity, actions, name and role, and nothing else |
| TabBridge.ListedInOrder | browser-extension/chrome/entrypoints/tab-bridge.ts:150-172 | A candidate stands at the place given by the number of eligible ones before it |
| TabBridge.ListedIsBounded | browser-extension/chrome/entrypoints/tab-bridge.ts:146-151 | Never more refs than asked for, nor more candidates looked at than four times as many or 1200; below those limits everything eligible is listed |
| TabBridge.Bridge.HandleAction | browser-extension/chrome/entrypoints/tab-bridge.ts:270-288 | Clicks and typing reach a ref in the paired session only; refusal changes nothing |
| TabBridge.Bridge.HandleSnapshot | browser-extension/chrome/entrypoints/tab-bridge.ts:270-275 | Only the paired session gets a snapshot; refusal changes nothing |
| TabBridge.Bridge.PrepareNavigation | browser-extension/chrome/entrypoints/tab-bridge.ts:276-286 | Succeeds on current evidence only and forgets session, document, snapshot and refs; refusal changes nothing |
| TabBridge.Bridge.Pair | browser-extension/chrome/entrypoints/tab-bridge.ts:255-269 | Pairing installs the session and burns all refs |
| Navigation.NavigatePairedTab | browser-extension/chrome/navigation.ts:20-66 | For every list of answers and throws of all seven operations, the calls made and the outcome are those of the specified attempt; the lemmas above and below say what every such attempt has done |
| Navigation.UpdatedIffReported | browser-extension/chrome/navigation.ts:50-65 | The tab was updated if and only if the outcome is a dispatch or unknown: this holds of an attempt exactly when its last call did not throw the code of an unknown outcome up to the invalidation, nor another code after the update |
| Navigation.InvalidationMayMislead | browser-extension/chrome/navigation.ts:41 | The function, given an invalidation that throws the code of an unknown outcome, updates nothing and reports it |
| Navigation.LastCheckMayMislead | browser-extension/chrome/navigation.ts:55 | The function, given a last check that throws another code, has updated the tab and reports that code |
| Navigation.UpdateIsAdmitted | browser-extension/chrome/navigation.ts:29-54 | The tab is updated at most once, with the paired tab and the requested address, which is a plain web address of the paired origin; and that happens if and only if the target is allowed and all twelve calls before it pass |
| Navigation.UpdateIsRevoked | browser-extension/chrome/navigation.ts:37-51 | By the names of the operations alone: before every update of the tab the document was invalidated and after that the pairing revoked, both returning; the pairing was required and the tab in the foreground before the invalidation; and between revocation and update the attempt was found current and in time |
| Navigation.DispatchIsChecked | browser-extension/chrome/navigation.ts:50-57 | A dispatch is reported only after an update that returned and, after that, a check that the attempt is current and in time |
| Navigation.FailureTellsHowFar | browser-extension/chrome/navigation.ts:25-57 | Unless the last call threw it, the code of a failure tells whether the document was invalidated and whether the tab was updated |
| Navigation.FailureNamesItsCause | browser-extension/chrome/navigation.ts:25-57 | The code of every failure, by the last call and what was called before: which check did not hold, the code that was thrown, or the one that covers it |
| Navigation.DispatchedIsConfirmed | browser-extension/chrome/navigation.ts:50-65 | A dispatch is reported if and only if the target is allowed and all fifteen calls pass, the last check included |
| Navigation.Shape | browser-extension/chrome/navigation.ts:25-65 | Every attempt passes some steps in order and then ends: dispatched, refused because of its target, or at the first call that does not pass |
| Navigation.Admit | browser-extension/chrome/navigation.ts:25-41 | Everything up to the invalidation follows the table; success means the target is allowed and seven calls passed |
| Navigation.Revoke | browser-extension/chrome/navigation.ts:42-49 | Follows the specified steps between the invalidation and the update, of which `UpdateIsRevoked` says that the revocation is one; whatever fails there, thrown or answered, is reported by the one code that tells that the evidence is gone |
| LineReader.BoundedJsonlReader.NextLines | crates/dcc-cua-cli/src/bounded_jsonl.rs:16-71 | For any stream in any chunks, successive calls answer with the verdicts on the newline-inclusive segments in order, one each, and then the end of the stream for ever |
| LineReader.BoundedJsonlReader.NextLine | crates/dcc-cua-cli/src/bounded_jsonl.rs:16-52 | The verdict on the first segment (too long, then not UTF-8, then its text), and exactly that segment is taken off the stream after success and error alike; the buffer never exceeds the frame limit |
| LineReader.BoundedJsonlReader.DiscardUntilNewline | crates/dcc-cua-cli/src/bounded_jsonl.rs:54-71 | Exactly the rest of the current line is taken off the stream |
| LineReader.SegmentsAreTheLineSplit | crates/dcc-cua-cli/src/bounded_jsonl.rs:16-52 | A list of segments is the line split of a stream if and only if it is the one the reader is proved against |
| LineReader.FirstSegmentOfAppend | crates/dcc-cua-cli/src/bounded_jsonl.rs:31-35 | A newline-free beginning and the rest of the line dropped after it are together the first segment |
| LineReader.FirstIsUnique | crates/dcc-cua-cli/src/bounded_jsonl.rs:29-30 | A stream has one first segment |
| Framing.Exchange | crates/dcc-cua-cli/src/browser_extension.rs:368-408 | Any list of admissible messages written and read back is the same list, and the stream is exhausted |
| Framing.ReadNativeMessage | crates/dcc-cua-cli/src/browser_extension.rs:368-387 | Succeeds if and only if the stream starts with a frame of 1 to the maximum number of bytes whose body parses, and takes exactly that frame; each error has its exact condition |
| Framing.WriteNativeMessage | crates/dcc-cua-cli/src/browser_extension.rs:389-408 | Accepts exactly the lengths the reader accepts, and writes nothing otherwise |
| Framing.FrameIsUnique | crates/dcc-cua-cli/src/browser_extension.rs:374-386 | A stream starts with at most one frame |
| Framing.TranscriptIsInjective | crates/dcc-cua-cli/src/browser_extension.rs:389-408 | Different lists of messages have different transcripts |
| Framing.LeBytesRoundTrip | crates/dcc-cua-cli/src/browser_extension.rs:376 | Four little-endian bytes give back the number they were made from |
| Framing.LeBytesInjective | crates/dcc-cua-cli/src/browser_extension.rs:404 | Every four bytes are the encoding of the number they denote |
| Framing.LeastByteFirst | crates/dcc-cua-cli/src/browser_extension.rs:404 | The first of the four bytes is the least significant one |
| Framing.LeastByteFirstReading | crates/dcc-cua-cli/src/browser_extension.rs:376 | And is read as that |
| ZOrder.TargetScopedBlock | scripts/indicator-acceptance-probe.py:1067-1116 | True if and only if the target is not a visible indicator window and all visible windows can be ordered without repetition so that each one's next window is its successor and the last one's next is the target; the walked handles are that order |
| ZOrder.WalkFrom | scripts/indicator-acceptance-probe.py:1107-1116 | The loop terminates, what it accepts is a chain, and it accepts whenever a chain starts there |
| ZOrder.BlockIsChain | scripts/indicator-acceptance-probe.py:1080-1100 | Windows are so ordered if and only if handles and dictionary have the right sizes and the dictionary has a chain |
| ZOrder.BlockOrderIsUnique | scripts/indicator-acceptance-probe.py:1107-1116 | There is at most one such order |
| ZOrder.DetachedCycleIsRejected | scripts/indicator-acceptance-probe.py:1107-1116 | A set of windows closed under "next window", such as a cycle of its own, rules a block out |
| ZOrder.VisibleTargetIsRefused | scripts/indicator-acceptance-probe.py:1093-1104 | Two windows that are ordered as promised and are refused, because the target is one of them |
| RunDetector.EvaluateMigrationSamples | scripts/indicator-acceptance-probe.py:345-430 | For every monitor, the recorded maximum is the length of its longest run of consecutive valid converged samples, and the stable observations are exactly the samples in runs of at least the required length, in order; the reasons are those of the invalid converged samples, in order |
| RunDetector.ValidSample | scripts/indicator-acceptance-probe.py:368-425 | A sample counts for a monitor if and only if it converged there, at the DPI known for it, with bounds that share a pixel with the monitor's |
| RunDetector.InvalidSample | scripts/indicator-acceptance-probe.py:368-425 | The reason of a converged sample that counts for none is the first that applies |
| RunDetector.RunCloses | scripts/indicator-acceptance-probe.py:356-365 | Closing a run turns a summary of the samples before it into one of the samples up to its end |
| RunDetector.StableSamplesInBlock | scripts/indicator-acceptance-probe.py:362-363 | The stable samples up to the end of a run are those before it and, if it is long enough, the whole run |
| RunDetector.NoVisitCrosses | scripts/indicator-acceptance-probe.py:426-429 | A visit lies before a run or inside it |
| Lifecycle.RunProbe | scripts/indicator-acceptance-probe.py:2456-2624 | With cleanup required, accepted if and only if the samples have the form not-converged\* converged+ absent+ whose first absent sample did not converge; without it, if and only if the last sample converged; accepted if and only if no reason is given |
| Lifecycle.CleanedGrows | scripts/indicator-acceptance-probe.py:2489-2518 | One more sample keeps the form if and only if it has no windows and the form, or the converged phase before it, was there |
| Lifecycle.SteadyGrows | scripts/indicator-acceptance-probe.py:2486-2488 | One more sample gives the converged form if and only if it converged after nothing or after that form |
| Lifecycle.CleanedIsPlain | scripts/indicator-acceptance-probe.py:2489-2518 | If a sample without windows cannot converge, the form is plainly not-converged\* converged+ absent+ |
| Bands.BandsTile | scripts/indicator-acceptance-probe.py:45-61 | For every DPI and step count the insets start at 0, each inner inset is the next outer one, and the last is the full thickness |
| Bands.PixelInExactlyOneBand | scripts/indicator-acceptance-probe.py:45-61 | Every pixel of the frame lies in one band and in no other |
| Bands.BandWidths | scripts/indicator-acceptance-probe.py:51-52 | Band widths are the floor of the mean width or one more |
| Bands.BandAlphas | scripts/indicator-acceptance-probe.py:45-61 | The outermost band has the full opacity, opacities never grow inwards nor leave the range, and each is the floor of the quadratic profile |
| Bands.BandsFollowProfile | scripts/indicator-acceptance-probe.py:1276-1294 | The bands of the contract pass both opacity checks that observed bands are put to |
| Bands.ScaleDipRoundsHalfUp | scripts/indicator-acceptance-probe.py:677-678 | DIP scaling is the integer within half a pixel, halves upwards, and no other integer is |
| Bands.ProfileDecidesMonotonicity | scripts/indicator-acceptance-probe.py:1276-1294 | Opacities that match the quadratic profile pass the monotonicity check if and only if there are bands and there is at most one step or the outer opacity is at least -1 |
| Bands.ProfileMayRise | scripts/indicator-acceptance-probe.py:1276-1294 | Opacities -4 and -1 over two bands match the profile and fail the monotonicity check; so does an empty family |
| ArchivePaths.SafeRelativePathIsExact | scripts/verify_final_archive.py:106-133 | A member name is accepted if and only if it is the one admitted spelling of a list of safe parts within the limits, and that list is the result |
| ArchivePaths.AcceptedStaysBelow | scripts/verify_final_archive.py:106-133 | An accepted path leads strictly below the directory it is resolved against |
| ArchivePaths.SplitJoin | scripts/verify_final_archive.py:114-115 | Parsing undoes spelling |
| ArchivePaths.JoinIsInjective | scripts/verify_final_archive.py:143-144 | Different accepted paths have different normalised names |
| Extraction.ExtractZip | scripts/verify_final_archive.py:185-235 | However extraction ends, at most the total limit is written. On a reliable disk it succeeds if and only if the number of entries is in range and the entries can be listed as members that obey all rules, differ in their folded names, fit together, and form a tree; then disk and results are exactly those members. On any disk another error than one of the system is the first broken rule of the first refused entry |
| Extraction.ExtractTar | scripts/verify_final_archive.py:238-270 | The same for tar members |
| Extraction.ExtractZipEntry | scripts/verify_final_archive.py:196-232 | One entry writes no more than what is left of the total; its error is the first broken rule, or a failure of the system; success means no rule is broken; on a reliable disk the system fails only for a clash |
| Extraction.ExtractTarEntry | scripts/verify_final_archive.py:249-267 | The same for one tar entry |
| Extraction.ZipRefusalIsExact | scripts/verify_final_archive.py:196-232 | An entry breaks no rule if and only if it is a member under a new name that still fits |
| Extraction.TarRefusalIsExact | scripts/verify_final_archive.py:249-267 | The same for tar entries |
| Extraction.ZipListingIsAccepted | scripts/verify_final_archive.py:185-235 | No prefix of entries that can be listed leads to the refusal of the next one |
| Extraction.TarListingIsAccepted | scripts/verify_final_archive.py:238-270 | The same for tar entries |
| Extraction.CheckZipEntry | scripts/verify_final_archive.py:203-226 | The checks before the copy find the first broken rule, if it is one of theirs |
| Extraction.WriteMember | scripts/verify_final_archive.py:162-175 | For any stream with short reads at most the declared size is written; unless the system refuses, the copy succeeds if and only if the stream has the declared length, and then the file is the stream; a reliable disk refuses exactly a path that is taken or lies below a file |
| Extraction.Registry.Register | scripts/verify_final_archive.py:136-150 | A name is unsafe if and only if it spells no path, and a duplicate if and only if it spells one that is registered already, itself or after folding; otherwise it is registered; refusal registers nothing |
| Extraction.BoundedSize | scripts/verify_final_archive.py:153-159 | Succeeds if and only if the size is within the per-file limit and the total stays within its own, and adds exactly the size |
| Extraction.ReflectsMember | scripts/verify_final_archive.py:231-232 | Adding a member keeps files, directories, disk and folded names in agreement with the members handled |
| Extraction.ReflectedPaths | scripts/verify_final_archive.py:178-182 | The returned files are the paths of the file members; the returned directories are the directory members and all non-empty proper prefixes of member paths |
| Extraction.DirectoriesArePrefixes | scripts/verify_final_archive.py:178-182 | The parent directories of a path are its non-empty proper prefixes |
| TreeDigest.StreamDeterminesMap | scripts/verify_final_archive.py:389-395 | Two streams fed to the digest are equal if and only if the maps from path to digest are |
| TreeDigest.EncodeIsInjective | scripts/verify_final_archive.py:391-394 | NUL-free path, NUL, 32 bytes: different lists of entries have different encodings |
| TreeDigest.EnumerationIsUnique | scripts/verify_final_archive.py:391 | A map has one listing in ascending path order |
| TreeDigest.LessIsLexicographic | scripts/verify_final_archive.py:391 | The order of the listing is the lexicographic one: at the first byte where two paths differ, or by length if one begins the other |
| TreeDigest.ComputeTreeDigest | scripts/verify_final_archive.py:389-395 | The result is the hash of the encoding of the sorted listing of the digests |
| TreeDigest.EqualTreeDigests | scripts/verify_final_archive.py:594-598 | Equal tree digests mean equal maps unless the hash collides on the two encodings |
| TreeDigest.VerifyFileDigests | scripts/verify_final_archive.py:375-386 | Succeeds if and only if every expected file is there with the expected digest; an error names a file that is missing or differs |
| TreeDigest.VerifySnapshot | scripts/verify_final_archive.py:561-598 | Succeeds if and only if the three trees agree in files, directories and digests; the final comparison of the three tree digests never fails |

## Left out

- Requests, subprocesses, ZIP, tar and gzip decoding, Win32 calls, timers and the DOM: they are arbitrary answers, byte sequences or parameters.
- LineReader.BoundedJsonlReader.NextLine: an I/O error of the underlying reader, which ends the call and loses the partial line, is not modelled; nor is saturation of the length addition, which needs a buffer near the address-space limit.
- Publisher.Publish: the `record` events, the texts of errors, the provenance files and manifests inside the bundle, and the order in which assets are sorted before their bytes are verified are not modelled; the local part of the bundle check is one flag of the configuration.
- Publisher.Stage: the code does not look at `isDraft` again after the fresh read before the staging patch. That a stable release is never turned back into a prerelease therefore holds in the undisturbed world only, and is stated there only.
- ReleaseModel.Gateway.ReadTag: one entry of the log for all requests of a tag lookup; the lookup itself is `TagPeel.TagSha`. ASCII digits stand for the Unicode digits that the version patterns also accept.
- ReleaseModel.Gateway.Upload: an upload that is killed half way is not a recorded state. The code refuses a partial set of assets, so recovery from one is not promised.
- ReleaseModel.Gateway.Patch: a PATCH for another release id changes nothing in the honest world.
- NativePorts.SavedPairingReachesItsPort: `unpair` and the tab events clear the pairing outside the update queue; they are the step `ClearedOutsideQueue`, which the lemma excludes. A `connectNative` that throws, badges, and the order of messages behind the handshake are not modelled.
- PairingCache.CoherentAtQuiescence: assumes that only `save`, `clear` and the removal of a malformed value write the key, that writes take effect in the order they were issued, and that events arrive in the order of the writes. `clearIfTab` is a composition of `load` and `clear` without state of its own.
- BrowserFence.BrowserSession.Snapshot: `latest_origin`, image decoding and result enrichment are left out; a response that cannot be taken apart counts as a failed call. Without an expectation the code does not compare the target and tab of the response with those of the request, and the model does not either. White space is ASCII white space.
- BrowserFence.BrowserSession.Mutate: the checks that look only at the arguments of the request are one flag, `wellFormed`.
- TabBridge.Bridge.HandleAction: what `click` and `type` do with the element, including the refusal to type into sensitive fields after the refs are burnt, belongs to the DOM. Refs and snapshot ids are pairs instead of formatted strings.
- Navigation.NavigatePairedTab: URLs are structured; parsing them is the browser's.
- The coalescing of content-script injection per tab (`createContentScriptEnsurer`).
- RunDetector.EvaluateMigrationSamples: the acceptance summary after the loop, a fixed decision over the proved dictionaries, is left out.
- ZOrder.TargetScopedBlock: stringification of handles; a missing handle counts as the handle of that text.
- Fitting opacity to a cosine over time, latency measurement and the rest of the sample evaluation.
- Extraction.ExtractTarEntry: a member that cannot be opened and a refused change of file mode end the extraction early in the code and are not modelled; the same holds for a read that raises. None of them writes a byte.
- Extraction.Disk.Create: whether a file system itself folds the case of names is not modelled; names that fold together are refused before it is asked.
- Extraction.WriteMember: `_copy_bounded_zip_member` (scripts/release_integrity.py:339-350) is the same loop and is not modelled a second time. `_validated_zip_members` and `_verify_published_assets` are decision tables over the same rules.
- TreeDigest.ComputeTreeDigest: sorting is modelled as taking the least remaining path each time; the digest cache and files that change while they are read are left out.
- ArchivePaths.SafeRelativePathIsExact: names are their UTF-8 bytes, and the table of reserved Windows names is a parameter.
- Framing.ReadNativeMessage: what a read that fails half way has consumed is not specified.
- Parsing of command lines, help texts, error envelopes, MIME sniffing, store publication and the readiness checks of the browser store.
