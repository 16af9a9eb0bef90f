# Skillwire: verified models

Skillwire imports agent skills from repositories, publishes them as hash-identified revisions, keeps
an append-only log of advisories about them, serves them behind token-bucket rate limiters, and
installs itself on a host with journalled, compensating operations. This project models the parts of
it where correctness spans several functions or whole runs, and proves what they promise.

The modules follow the program's components.

1. **Eligibility of imported skills** (`FirstPaths`, `DependencyResolver`, `CycleExample`,
   `Eligibility`, `SourceSync`, `Admission`, `RevisionBuild`, `SnapshotClassification`,
   `PublishedRevisions`, `CandidateOrder`). Dependencies are resolved inside one snapshot, a
   depth-first search marks members of cycles, a propagation loop disqualifies whatever depends on a
   disqualified skill, and a memoised recursion builds revisions without any guard of its own. The
   central result is that the skills left without findings are exactly the greatest set of admissible
   ones that is closed under dependencies and free of cycles. That is why the recursion terminates, why
   its memo equals the plain recursion, why a published revision depends only on other published
   revisions, and why nothing of this depends on the order in which the snapshot lists its skills. What
   the search itself marks does depend on that order, and is characterised exactly. Admissible, and
   what a quarantined candidate shows, are said on the staged candidates alone.
2. **Canonical JSON and hash-chained logs** (`CanonicalJson`, `JsonParser`, `CanonicalForm`,
   `HashChain`, `AdvisoryChain`, `AdvisorySchema`, `ExternalAdvisoryChain`, `ReleaseBaseline`,
   `TextNormalization`, `CanonicalRevision`, `CanonicalRevisionV2`, `AcceptedRevisions`, `AcceptedImports`,
   `HashCoverage`, `ExternalHashCoverage`, `IntegrityExamples`). The canonical printer decides equality of values and is
   undone by an RFC 8259 parser; log texts and logs determine each other; a verified head determines its
   whole history; revocation is final within a log and across releases. Which inputs become revisions,
   what these hold and what their hashes determine is exact; a revision passes its integrity check
   exactly when it is what its own texts give, and a freshly created one under an exact condition.
3. **Rate limiters** (`TokenBuckets`, `TwoBucketRuns`, `RateLimiter`). The two stateful classes are
   tied to a step on values. Over every run and every clock, what is admitted is bounded, a retry is
   admitted exactly when the clock's forward steps add up to its exact wait, and the returned seconds
   suffice. Denied calls are invisible on every run whose clock does not step back.
4. **Journal recovery** (`JournalEntries`, `EffectBoundaries`, `OperationJournal`, `RecoveryPlan`,
   `RecoveryRuns`, `IntentRecovery`, `CrashSafety`, `HostRuns`, `Recovery`). The journal's writer, the
   protocol of a journalled effect and the recovery procedure are methods that may stop at any effectful
   call; what any number of interrupted recoveries achieve together, in the journal and on the host, is
   proved on values.
5. **Compensating transactions** (`ClientLifecycle`, `SecretRotation`). Both run with a fault chosen for
   every single call.
6. **Activation traces** (`ActivationTrace`). The online checker equals a declarative reading of the
   calls of each task, under any interleaving.

Strings are sequences of UTF-16 code units, token levels are exact reals, and times are milliseconds.
SHA-256, Unicode normalisation, locale collation, safe-path and date-time checks are parameters, with
the laws that are used of them stated as predicates. The hash is never assumed injective: results that
rest on it say that the values agree or that texts of the very values compared break the hash.

Where the code does not do what it is for, the exact boundary is proved, and an input beyond it is given:

- `CanonicalRevision.IntegrityExact`, `CanonicalRevisionV2.ExternalIntegrityExact`: one pass of text
  normalisation strips two byte-order marks, so a text that starts with three of them, or an optional
  provenance field that is present but undefined, yields a revision that fails its own check. Such
  inputs are accepted: `IntegrityExamples.MarkedRevisionFails`, `IntegrityExamples.SmallImportsDecided`.
- `SecretRotation.RotateServiceSecret`: when the directory cannot be synchronised after the swap and
  the handler's own rename and unlink work, the last name of the old secret is removed
  (`SecretRotation.OneFailedSyncLoses`).
- `TokenBuckets.RetryIsLeast`, `TwoBucketRuns.DeniedCallsInvisible`: a clock that steps back and forth
  earns tokens in no time, so a denied call can be admitted before its wait is over
  (`TokenBuckets.SteppingBackEarns`), and a denied call on the way changes a later decision
  (`TwoBucketRuns.DeniedCallSeen`).
- `DependencyResolver.DependencyCycleMembers`: the search marks the names on first paths that an edge
  closes to a cycle, which need not be every name on a cycle (`CycleExample.SearchedExample`).
- `CrashSafety.ExaminedExactly`, `RecoveryRuns.DanglingIntent`: the step of a last intent is not looked
  at while another boundary is unresolved, and the journal is then committed over it
  (`CrashSafety.SecondIntentIsForgotten`).
- `CrashSafety.RecoverableExactly`: two kinds of cancellation can never be recovered from. Below one
  whose status is neither failed nor recovery-required, the journal refuses to record a compensation for
  what is unresolved. The program writes such a journal itself: a setup aborted after finished effects,
  none of them unproven, is cancelled as "cancelled" (`src/onboarding/application/production-setup.ts`,
  lines 1989 to 1995; `CrashSafety.CancelledSetupIsStuck`). And a cancellation that asks for recovery
  with nothing unresolved leaves recovery nothing to do, so it keeps asking
  (`CrashSafety.NothingToRecoverIsBlocked`).
- `ClientLifecycle.InstallClientLifecycle`: compensation is complete unless the error that stopped the
  installation hides an effect (`ClientLifecycle.ReportedCompensated`).

`dafny verify dfyconfig.toml` checks the whole project.

## Model

| member | source | states |
|---|---|---|
| DependencyResolver.ResolveInternalDependencies | src/domain/external-catalog/dependency-resolver.ts:11-62 | the loop over a count map returns the resolvable evidence and the findings for required evidence, each stably sorted by the given collation |
| DependencyResolver.ResolvedExactly | src/domain/external-catalog/dependency-resolver.ts:21-53 | a dependency is kept, as often as it was given, exactly when its target is another skill and exactly one skill of the snapshot has that name |
| DependencyResolver.FindingsExactly | src/domain/external-catalog/dependency-resolver.ts:24-51 | the findings are exactly those of required evidence that is not an explicit invocation: ambiguous when it names the skill itself or several skills have the name, missing when none has it; one for each such piece of evidence |
| DependencyResolver.CleanIffResolved | src/domain/external-catalog/dependency-resolver.ts:24-51 | resolution reports nothing exactly when every required dependency that is not an explicit invocation names exactly one other skill |
| DependencyResolver.CycleFinder.MarkCycle | src/domain/external-catalog/dependency-resolver.ts:73-77 | everything from a name found on the stack to its top is marked, and every marked name still lies on a cycle of marked names |
| DependencyResolver.CycleFinder.Visit | src/domain/external-catalog/dependency-resolver.ts:71-84 | the recursive search ends, restores stack and visiting set, leaves the name visited or marked together with its caller, keeps the finishing-order invariant, and has found every name so far by a path before the one it is about to take |
| DependencyResolver.DependencyCycleMembers | src/domain/external-catalog/dependency-resolver.ts:64-87 | the search terminates on every graph; its members are exactly the names on the part of a first path that an edge from its end closes to a cycle; every closed walk contains a member, and an edge leads to a name finished earlier unless both ends are members |
| FirstPaths.FoundFirst | src/domain/external-catalog/dependency-resolver.ts:71-85 | a finished search has found every name that can be reached, by a path no later than any other simple path to it, comparing paths by the order of keys and dependencies |
| FirstPaths.MarksFirstCycles | src/domain/external-catalog/dependency-resolver.ts:73-77 | what such a search has marked is determined by the graph and the order of its keys and dependencies alone |
| CycleExample.SearchedExample | src/domain/external-catalog/dependency-resolver.ts:64-87 | on a graph of four names, all on cycles, the search marks three |
| DependencyResolver.RankDrops | src/domain/external-catalog/dependency-resolver.ts:78-83 | along an edge with an unmarked end the finishing position strictly decreases |
| DependencyResolver.ClosedWalkIsMarked | src/domain/external-catalog/dependency-resolver.ts:64-87 | a finishing order alone forces every closed walk through a marked name |
| Eligibility.SurvivorsAreGreatestSound | src/application/services/source-synchronization-service.ts:883-923 | the greatest dependency-closed subset of the unmarked clean candidates is the greatest closed and loop-free subset of all clean candidates, although the search does not mark every name on a cycle, and finishing order is a measure on it |
| CandidateOrder.GreatestSoundMoves | src/application/services/source-synchronization-service.ts:901-931 | listing the candidates in another order moves the greatest sound set with them, and there is no other |
| CandidateOrder.OrderIsIrrelevant | src/application/services/source-synchronization-service.ts:801-1053 | from staged candidates to results: in another order the same candidates are eligible, and the same candidates are verified with the same revisions |
| Eligibility.CycleIsLoop | src/application/services/source-synchronization-service.ts:883-899 | a closed walk of names through a closed clean set is a loop of candidates inside that set, because names are unique |
| Eligibility.GroundedHasNoLoop | src/application/services/source-synchronization-service.ts:936-953 | a set with a measure that drops along dependencies contains no loop |
| SourceSync.CollectNames | src/application/services/source-synchronization-service.ts:801-813 | the duplicate names are exactly those that more than one parsed candidate has |
| SourceSync.ResolveCandidates | src/application/services/source-synchronization-service.ts:814-881 | every parsed candidate gets its resolved dependencies and, in order, its duplicate, resolution, budget and resource findings; nothing else changes |
| Admission.CleanExactly | src/application/services/source-synchronization-service.ts:801-881 | a candidate is clean after resolution exactly when it was clean before, no other candidate has its name, every required dependency that is not an explicit invocation names exactly one other candidate, the dependencies kept are within the budget, and its resources were read |
| Admission.ResolvedAs | src/application/services/source-synchronization-service.ts:814-881 | resolution keeps what the candidate was and its earlier findings first; what it adds, dependency by dependency and finding by finding, is said on the staged candidates |
| SourceSync.ResolvedNamesUnique | src/application/services/source-synchronization-service.ts:814-831 | after resolution no two candidates share the name of a clean one |
| SourceSync.BuildGraph | src/application/services/source-synchronization-service.ts:883-889 | the graph holds for each name the dependencies of its last candidate |
| SourceSync.MarkOne | src/application/services/source-synchronization-service.ts:890-899 | a finding for one more cycle member goes to the first candidate of that name and to no other |
| SourceSync.MarkCycleMembers | src/application/services/source-synchronization-service.ts:890-899 | in whatever order the members are taken, exactly the first candidate of each gets one finding more |
| SourceSync.Propagate | src/application/services/source-synchronization-service.ts:901-923 | the loop terminates and leaves clean exactly the greatest dependency-closed subset of what was clean, whatever the order of the candidates; a loser has one finding, naming a dependency that is not available |
| SourceSync.PropagateOnce | src/application/services/source-synchronization-service.ts:902-922 | one pass either loses some clean candidates or changes nothing, and then every clean candidate finds each of its dependencies clean |
| SourceSync.QuietPassCloses | src/application/services/source-synchronization-service.ts:902-922 | a pass that finds nothing proves the remaining clean set closed and greatest |
| RevisionBuild.BuildUnique | src/application/services/source-synchronization-service.ts:936-1000 | the built revision does not depend on the measure that makes the recursion terminate |
| RevisionBuild.BuiltDependencies | src/application/services/source-synchronization-service.ts:944-953 | every dependency of a built revision pins the skill id and the revision of the built target of one of the candidate's dependencies |
| RevisionBuild.FailurePropagates | src/application/services/source-synchronization-service.ts:944-953 | a target of an eligible candidate is eligible, so it is never missing, and its failure fails the dependent |
| RevisionBuild.FailureReachesDependents | src/application/services/source-synchronization-service.ts:936-1049 | a failed construction fails every transitive dependent |
| RevisionBuild.BuildsAreClosed | src/application/services/source-synchronization-service.ts:936-1000 | each dependency of a built revision is recorded from another candidate of the batch that was built too |
| RevisionBuild.RevisionBuilder.BuildRevision | src/application/services/source-synchronization-service.ts:932-1000 | the memoised recursion terminates without a guard and returns what the unmemoised recursion returns; the memo only grows and holds one revision per name |
| SnapshotClassification.IndexEligible | src/application/services/source-synchronization-service.ts:925-931 | the map of eligible names holds every clean candidate under its name, and nothing else |
| SnapshotClassification.Disqualify | src/application/services/source-synchronization-service.ts:883-923 | marking and propagation together leave clean exactly the greatest closed loop-free set of the resolved candidates; a candidate gets one finding for the cycle its name is marked on, or, when it has none and is not marked, one for a dependency without an eligible target |
| SnapshotClassification.ClassifySnapshot | src/application/services/source-synchronization-service.ts:801-1053 | from staged candidates to results: clean after resolution are exactly the admissible candidates; a candidate is verified with its revision exactly when it is in their greatest sound set and its construction succeeds; every result carries path, name and description of its candidate and, when quarantined, shows its findings or its construction error; publication is closed |
| SnapshotClassification.ClassifiedIsClosed | src/application/services/source-synchronization-service.ts:1002-1053 | whichever constructions fail, each dependency of a published revision carries the skill id and revision of another revision published in the same batch |
| PublishedRevisions.PublishedFrom | src/application/services/source-synchronization-service.ts:944-1000 | a published revision holds its candidate's document, resources and legal facts, property by property, and each of its dependencies with the id and revision built for the target |
| CanonicalJson.ObstacleIffUnprintable | src/domain/catalog/canonical-revision.ts:29-60 | canonicalisation refuses exactly the values that hold a number that is not a safe integer or something that is not JSON, at any depth |
| CanonicalJson.NormalizeDecidesSameValue | src/domain/catalog/canonical-revision.ts:29-60 | sorting keys at every level brings two values to one form exactly when they agree up to the order of record keys |
| CanonicalJson.RenderNoControls | src/domain/catalog/canonical-revision.ts:29-60 | canonical text holds no control character, hence no newline |
| JsonParser.JsonParseRendered | src/domain/catalog/canonical-revision.ts:29-60 | a JSON parser (RFC 8259, strings as in section 7) returns every printed value |
| JsonParser.CanonicalizeInjective | src/domain/catalog/canonical-revision.ts:29-60 | two values have one canonical text exactly when they are the same up to record key order |
| JsonParser.CanonicalizeRoundTrip | src/domain/catalog/canonical-revision.ts:58-60 | canonicalisation succeeds exactly on printable values, and parsing its text gives the same value up to key order |
| CanonicalForm.CanonicalKeysAscend | src/domain/catalog/canonical-revision.ts:46-55 | canonical text is the rendering of the value with the keys of every record ascending strictly by code unit, at every depth, and the only such rendering |
| CanonicalForm.UnitsWritten | src/domain/catalog/canonical-revision.ts:29-40 | a unit of a string is written as it is, or by a six-character escape with lower-case digits when it is a control character without a short escape or a lone surrogate |
| CanonicalForm.PlainTextWritten | src/domain/catalog/canonical-revision.ts:29-40 | text without control characters, quotes, backslashes and lone surrogates is written between quotes as it is |
| JsonParser.NormalizeIdempotent | src/domain/catalog/canonical-revision.ts:29-60 | a normalised value is its own normal form |
| StableSort.SortStable | src/domain/catalog/canonical-revision.ts:85-137 | the sort keeps the relative order of elements that compare equal, for every total preorder |
| StableSort.SortedUnique | src/domain/catalog/canonical-revision.ts:29-60 | two sorted arrangements of the same elements are equal when distinct elements never tie |
| StableSort.SortFixed | src/domain/catalog/revision-integrity.ts:4-22 | sorting what is sorted changes nothing |
| HashChain.OneHeadOneHistory | src/domain/catalog/advisory-chain.ts:108-143 | for any log whose hashed text fixes the event, two linked logs with one head are equal event by event unless two of their own texts collide or one hashes to the empty head |
| AdvisorySchema.SlugIsWords | src/domain/catalog/advisory-chain.ts:18-21 | a skill identifier matches the schema's expression exactly when it is words of lower-case letters and digits joined by single hyphens |
| AdvisorySchema.LengthsTaken | src/domain/catalog/advisory-chain.ts:13-34 | which lengths of every text of a valid event the schema takes, and no others |
| AdvisoryChain.ParseSerialized | src/domain/catalog/advisory-chain.ts:74-106 | serialising schema-valid events never fails, and parsing the text returns those events when it is within the size limit |
| AdvisoryChain.SerializeParsed | src/domain/catalog/advisory-chain.ts:74-106 | whatever the parser accepts serialises back to the exact text, and every parsed event is schema-valid |
| AdvisoryChain.VerifyAdvisoryChain | src/domain/catalog/advisory-chain.ts:108-149 | the loop accepts exactly the logs whose events are each valid independently of the checker and whose head is the expected one; the status table holds the last state of every revision; a refusal names the first failing check of the first bad event |
| AdvisoryChain.RevokedIsFinal | src/domain/catalog/advisory-chain.ts:129-137 | in a valid log the last state of a revision is revoked exactly when any event revoked it |
| AdvisoryChain.StatusIsLastState | src/domain/catalog/advisory-chain.ts:151-159 | looking a revision up gives the state of the last event about that skill and revision, available when there is none, and revoked exactly when some event revoked it |
| AdvisoryChain.KeyNamesRevision | src/domain/catalog/advisory-chain.ts:52-54 | whatever skill and revision are looked up, the key is that of a schema-valid event exactly when the event is about them |
| AdvisoryChain.RevisionSays | src/domain/catalog/advisory-chain.ts:13-32 | the names under which a line of the log holds the revision an event is about |
| AdvisoryChain.StateSays | src/domain/catalog/advisory-chain.ts:13-32 | the names and words with which it holds what the event says; there are eleven names |
| AdvisoryChain.EventTextFaithful | src/domain/catalog/advisory-chain.ts:56-66 | the hashed text of a schema-valid event determines everything but the hash |
| AdvisoryChain.SameHeadSameChain | src/domain/catalog/advisory-chain.ts:108-143 | two logs that verify to the same head are identical, unless texts of their own events break the hash |
| ExternalAdvisoryChain.VerifyExternalAdvisoryChain | src/domain/external-catalog/external-advisory-chain.ts:25-51 | the loop accepts exactly the contiguous, linked and correctly hashed logs that end at the expected head |
| ExternalAdvisoryChain.ExternalEventSays | src/domain/external-catalog/external-advisory-chain.ts:33-41 | the seven names under which the hashed record holds an external event |
| ExternalAdvisoryChain.SameHeadSameExternalChain | src/domain/external-catalog/external-advisory-chain.ts:19-51 | two external logs verified against one head are identical, unless texts of their own events break the hash |
| ReleaseBaseline.BytePrefixIsEventPrefix | src/catalog/github-release-baseline.ts:320-328 | for accepted texts, starting with the previous text is the same as starting with the previous events |
| ReleaseBaseline.VerifyBaseline | src/catalog/github-release-baseline.ts:315-331 | prefix check and double verification accept exactly the releases whose valid log appends events to the previous valid log and ends at the released head |
| ReleaseBaseline.RevocationSurvives | src/catalog/github-release-baseline.ts:315-331 | a revision revoked in the previous release is revoked in every release the check accepts |
| TextNormalization.NormalizeDropsTwoBoms | src/domain/catalog/text-normalization.ts:8-34 | one pass removes two leading byte-order marks at most |
| TextNormalization.NormalizeFixedPoint | src/domain/catalog/text-normalization.ts:8-34 | a second pass changes nothing exactly when the text began with at most two byte-order marks |
| TextNormalization.NormalizedIsClean | src/domain/catalog/text-normalization.ts:8-34 | a normalised text is encodable, in normal form, and without carriage returns or NUL |
| AcceptedRevisions.NormalizeExactly | src/domain/catalog/text-normalization.ts:8-34 | normalisation accepts exactly texts without NUL and of at most 256 KiB before and after, and gives the composition of the text without two byte-order marks, with lone surrogates replaced and line ends unified |
| AcceptedRevisions.UnixLinesUpTo | src/domain/catalog/text-normalization.ts:24-27 | a text is kept up to its first carriage return, which becomes a line feed together with one that follows it, and so on |
| AcceptedRevisions.ReencodedUnits | src/domain/catalog/text-normalization.ts:14-19 | encoding and decoding replace exactly the surrogates that are not half of a pair |
| CanonicalRevision.IntegrityExact | src/domain/catalog/revision-integrity.ts:4-22 | a revision just created passes its own integrity check exactly when no text of its input begins with three byte-order marks; normalising, sorting and hashing then reach a fixed point |
| CanonicalRevision.IntegrityMeans | src/domain/catalog/revision-integrity.ts:4-22 | a revision passes the integrity check exactly when it is, field by field, the revision that its own texts give |
| CanonicalRevision.SameRevision | src/domain/catalog/canonical-revision.ts:66-83 | equal revision records are equal revisions, provenance up to the order of keys |
| AcceptedRevisions.AcceptedExactly | src/domain/catalog/canonical-revision.ts:85-137 | a revision is created exactly from one to 64 resources with safe distinct paths and good texts of at most 2 MiB together, and JSON provenance; it holds the normalised texts, each resource with its own bytes and hash, ordered by path |
| HashCoverage.BundleHashCovers | src/domain/catalog/canonical-revision.ts:66-83 | two created revisions with one bundle hash agree in skill id, revision, provenance up to key order, instructions and every resource, or the texts under the hashes collide; revisions that agree have one bundle hash |
| HashCoverage.PayloadSays | src/domain/catalog/canonical-revision.ts:66-79 | the names under which the hashed record holds what a revision says; there are no others |
| CanonicalRevision.RevisionRecord | src/domain/catalog/canonical-revision.ts:81-83 | a revision record is printable exactly when its provenance is |
| CanonicalRevisionV2.ExternalIntegrityExact | src/domain/external-catalog/canonical-revision-v2.ts:153-177 | an imported revision passes its own check exactly when no text begins with three byte-order marks and no optional provenance field is present but undefined |
| CanonicalRevisionV2.ExternalIntegrityMeans | src/domain/external-catalog/canonical-revision-v2.ts:153-177 | an imported revision passes the integrity check exactly when it is, field by field, the revision that its own texts give, and no property of its provenance is explicitly undefined |
| AcceptedImports.AcceptedImportExactly | src/domain/external-catalog/canonical-revision-v2.ts:31-151 | an imported revision is created exactly under the listed limits on provenance, texts, resources, dependencies and bundle size; each of the errors a classification tells apart is given exactly when it is the first that applies |
| AcceptedImports.ImportHolds | src/domain/external-catalog/canonical-revision-v2.ts:31-151 | it holds the normalised texts, its resources and dependencies in order, and the provenance given but for its two texts |
| ExternalHashCoverage.IdentityHashCovers | src/domain/external-catalog/canonical-revision-v2.ts:78-114 | two imported revisions with one content identity are the same skill from the same origin, whatever the commit, or texts under their hashes collide; the same skill from the same origin has one content identity |
| ExternalHashCoverage.BundleHashCovers | src/domain/external-catalog/canonical-revision-v2.ts:114-134 | two imported revisions have the same bytes exactly when they are the same skill from the same commit; with one bundle hash, or with one revision name, they are that or their bytes collide |
| ExternalHashCoverage.IdentitySays | src/domain/external-catalog/canonical-revision-v2.ts:78-113 | the names under which the identity record holds what the skill says and where it is from |
| ExternalHashCoverage.BundleSays | src/domain/external-catalog/canonical-revision-v2.ts:115-124 | the bundle record says the same under the same names, and besides the repository, the commit and the licence texts |
| CanonicalRevisionV2.CreatedKeepsDependencies | src/domain/external-catalog/canonical-revision-v2.ts:31-151 | creation keeps the skill id, the name and exactly the given dependencies |
| CanonicalRevisionV2.ProvenanceRecord | src/domain/external-catalog/canonical-revision-v2.ts:31-151 | the provenance record is printable exactly when nothing in it is explicitly undefined and the repository number is a safe integer |
| IntegrityExamples.MarkedRevisionFails | src/domain/catalog/revision-integrity.ts:4-22 | a revision whose instructions are three byte-order marks is created and fails its own integrity check |
| IntegrityExamples.SmallImportsDecided | src/domain/external-catalog/canonical-revision-v2.ts:153-177 | imports that differ only in their instructions and one optional provenance field are all accepted; the check passes exactly the one without three byte-order marks and without an undefined field |
| TokenBuckets.LevelComposes | src/authentication/middleware.ts:50-57 | saturating refill composes: refilling on the way changes nothing |
| TokenBuckets.RateBound | src/authentication/middleware.ts:50-69 | between any two calls of any run the global limiter admits at most the burst plus what the forward steps of the clock earn, which is the elapsed time on a nondecreasing clock |
| TokenBuckets.AdmittedExactly | src/authentication/middleware.ts:50-69 | for every clock and every starting bucket: while every call since a call is denied, the next is admitted exactly when the clock's forward steps since then add up to the exact wait |
| TokenBuckets.RetryIsLeast | src/authentication/middleware.ts:58-68 | for every clock: after a denial, a call is admitted once the returned seconds have passed; while the forward steps of the clock come to no more than a second less, when more than one was asked, it is denied; without a step back these are the time that has passed |
| TokenBuckets.SteppingBackEarns | src/authentication/middleware.ts:52-57 | told to wait sixty seconds, a caller is admitted after none when the clock steps back and forth |
| TwoBucketRuns.RateBound | src/authentication/middleware.ts:102-157 | for every run of the two-bucket limiter and every account or key, the admitted calls between two calls are at most the burst plus what the forward clock steps earn |
| TwoBucketRuns.DeniedCallsInvisible | src/authentication/middleware.ts:122-157 | deleting any denied calls from a run on a nondecreasing clock leaves every other decision and retry time as it was, across identities that share an account or a key |
| TwoBucketRuns.DeniedCallSeen | src/authentication/middleware.ts:112-118 | on a clock that steps back, deleting a denied call turns a later admission into a denial |
| TwoBucketRuns.DecisionsInOrder | src/authentication/middleware.ts:122-157 | the decisions of a run taken from the front are those of its prefixes |
| TwoBucketRuns.AdmittedExactly | src/authentication/middleware.ts:102-157 | for every clock and every state of the limiter: with no admitted call on either identity, a retry is admitted exactly when account and key have each seen the forward steps of the clock add up to their exact wait |
| TwoBucketRuns.RetryIsLeast | src/authentication/middleware.ts:136-156 | for every clock: waiting the returned seconds admits the same caller; while neither identity has seen the clock step forward by more than a second less, when more than one was asked, it is denied; without a step back what they see is the time that has passed |
| RateLimiter.AuthenticationRateLimiter.Create | src/authentication/middleware.ts:32-48 | a limiter starts full, and is refused exactly when rate or burst is below one |
| RateLimiter.AuthenticationRateLimiter.Consume | src/authentication/middleware.ts:50-69 | a call changes the bucket and answers as one step of the run does, and touches nothing else |
| RateLimiter.AccountApiKeyRateLimiter.Refill | src/authentication/middleware.ts:102-120 | a bucket is found or created full, refilled, and kept in its table; every other bucket of the table is as before |
| RateLimiter.AccountApiKeyRateLimiter.Consume | src/authentication/middleware.ts:122-157 | both tables and the decision are those of one step of the run: one token from each bucket or from none; no two identities ever share a bucket |
| JournalEntries.DisciplinedSteps | src/onboarding/domain/operation-journal.ts:162-216 | a journal is disciplined exactly when it grew entry by entry, each legal after those before it |
| JournalEntries.SuccessFollowsVerifiedEffect | src/onboarding/domain/operation-journal.ts:194-200 | a journal committed as a success ends with the intent, effect and verification of one step |
| JournalEntries.CommitIsLast | src/onboarding/domain/operation-journal.ts:173-178 | nothing follows a commit |
| JournalEntries.CancelAllowsCompensations | src/onboarding/domain/operation-journal.ts:167-178 | only a compensation follows a cancellation, and only one that says failed or recovery-required |
| JournalEntries.CommitIsFounded | src/onboarding/domain/operation-journal.ts:183-193 | a commit rests on an earlier verification, or says recovered and follows a compensation that is not unproven |
| OperationJournal.OperationJournal.Append | src/onboarding/domain/operation-journal.ts:162-216 | an entry is appended exactly when it is legal after the journal and the line can be written; otherwise the journal is unchanged |
| OperationJournal.OperationJournal.RunEffect | src/onboarding/domain/operation-journal.ts:237-276 | exactly which lines the journal gains, for every outcome of the action and every line that fails to be written; an action that may have begun is traced, and recovery looks at its step exactly when a line after the intent was written, or nothing else was unresolved, or the step had a boundary before |
| EffectBoundaries.UnresolvedEffectBoundaries | src/onboarding/application/recovery.ts:20-35 | the insertion-ordered map, sorted by sequence, holds exactly the unresolved boundaries in journal order |
| EffectBoundaries.UnresolvedExactly | src/onboarding/application/recovery.ts:20-35 | a boundary is unresolved exactly when it is an effect or an unproven compensation that no later entry settles; at most one per step, ascending |
| EffectBoundaries.JournalNeedsRecovery | src/onboarding/application/recovery.ts:37-45 | the reader agrees with its definition on unresolved boundaries |
| RecoveryPlan.HandledIsResolved | src/onboarding/application/recovery.ts:70-78 | boundaries compensated in reverse order are resolved and exactly the earlier ones remain |
| RecoveryPlan.CutOf | src/onboarding/application/recovery.ts:70-79 | wherever settling is cut, the journal is as after a whole number of settlements |
| RecoveryRuns.BoundariesCrashSafe | src/onboarding/application/recovery.ts:47-111 | with unresolved boundaries, after any sequence of attempts, each cut after any number of effectful calls and observing anything, the journal has gained one proven compensation for each boundary handled, the latest first, and at most one commit |
| IntentRecovery.IntentCrashSafe | src/onboarding/application/recovery.ts:109-141 | with only a last intent open, any interrupted attempts leave the journal untouched, with the step recorded as an effect or also verified and that boundary then recovered like any other, settled, or committed |
| CrashSafety.CrashSafe | src/onboarding/application/recovery.ts:47-169 | for every journal that needs a recovery that can finish: after any sequence of interrupted attempts the journal is on one of these ways, needs recovery exactly until it is committed, can still be recovered, and no step is open that was not |
| CrashSafety.RerunCompletes | src/onboarding/application/recovery.ts:47-169 | for every such journal: after any interrupted attempts, one that tells apart the steps these have left open, and has calls enough for what they left, finishes the recovery |
| HostRuns.UndoneExactlyOnce | src/onboarding/application/recovery.ts:54-169 | on a host where an undone step stays undone, for any interrupted recoveries of any journal, each unable to tell any steps apart: no step is undone twice; only owned mismatches among the steps open at the start are undone; once the journal is committed by them, exactly these are, and no such step is a mismatch any more |
| CrashSafety.RecoverableExactly | src/onboarding/application/recovery.ts:92-169 | some attempt finishes the recovery of a journal that needs it exactly when the journal does not end in a cancellation that takes no compensation for what is unresolved, or asks for recovery with nothing unresolved |
| CrashSafety.CancelledSetupIsStuck | src/onboarding/application/production-setup.ts:1989-1995 | a finished effect followed by a cancellation as cancelled is a legal journal that needs recovery, and no attempts ever change it |
| CrashSafety.NothingToRecoverIsBlocked | src/onboarding/application/recovery.ts:37-45 | a legal journal whose cancellation asks for recovery with nothing unresolved keeps needing recovery whatever is attempted |
| CrashSafety.ExaminedExactly | src/onboarding/application/recovery.ts:54-134 | what a step looks like makes a difference to plan or verdict exactly when the step has an unresolved boundary or, with nothing unresolved, is that of the last intent |
| CrashSafety.SecondIntentIsForgotten | src/onboarding/application/recovery.ts:109-134 | after one finished effect and the intent of a second, a legal journal, a complete recovery never looks at the second step and commits |
| RecoveryRuns.UndoesOnlyMismatches | src/onboarding/application/recovery.ts:70-72 | recovery undoes only steps it looks at, and only where it observed an owned mismatch |
| CrashSafety.UndoesEveryMismatch | src/onboarding/application/recovery.ts:70-78 | a step journalled as settled by an attempt that observed an owned mismatch has been undone in that same attempt |
| RecoveryRuns.VerdictExact | src/onboarding/application/recovery.ts:92-169 | a recovery that runs to its end reports recovery-required exactly when the journal it leaves needs recovery |
| RecoveryRuns.ReportsRecovered | src/onboarding/application/recovery.ts:80-90 | when every step looked at can be told apart, the report is a safe retry exactly when none had taken effect and resume otherwise, changed, and names the latest such step |
| RecoveryRuns.ReportsAmbiguous | src/onboarding/application/recovery.ts:54-68 | when one cannot, recovery is required, nothing was changed, and the report names the latest such step |
| RecoveryRuns.ReportsUnexamined | src/onboarding/application/recovery.ts:99-169 | with nothing to look at, the last line of the journal decides the report |
| RecoveryRuns.DanglingIntent | src/onboarding/application/recovery.ts:109-134 | a last intent decides the outcome when nothing else is unresolved; otherwise plan and verdict are the same whatever its step looks like |
| Recovery.ObserveAll | src/onboarding/application/recovery.ts:54-68 | boundaries are observed latest first, and the first ambiguous one stops recovery before anything is changed |
| Recovery.SettleBoundary | src/onboarding/application/recovery.ts:70-78 | an owned mismatch is undone before it is journalled as settled; where the call budget ends, exactly the calls made so far have taken effect |
| Recovery.RecoverOperation | src/onboarding/application/recovery.ts:92-169 | interrupted anywhere, journal and host are exactly as after the same attempt on values; it answers exactly when its whole plan was performed |
| ClientLifecycle.Advance | src/onboarding/application/client-lifecycle.ts:135-199 | the components added are those of the calls up to the first that throws, in order, including that call's own effect; the flags say exactly which parts were attempted |
| ClientLifecycle.Compensate | src/onboarding/application/client-lifecycle.ts:209-285 | what is gone afterwards, failed or not, part by part; whether it failed; the credential goes whatever became of the rest |
| ClientLifecycle.PartsDecided | src/onboarding/application/client-lifecycle.ts:230-285 | call by call: what each inverse decides and what stands in its way, and exactly which failures are reported |
| ClientLifecycle.RestoredExactly | src/onboarding/application/client-lifecycle.ts:209-285 | undoing what was attempted gives back the client as it was exactly when whatever is left behind was there before and nothing undone was; when the preflight told the truth, exactly when the error hid no effect |
| ClientLifecycle.InstallClientLifecycle | src/onboarding/application/client-lifecycle.ts:119-317 | under every choice of faults and every preflight answer: verified exactly when the preflight decides to go on and no call throws, with every planned component there; the exact client after every failure, whether compensated or in need of recovery, exactly which of the two is reported, and what is then owned; only planned components are ever added or removed, each only after those it follows; nothing that was there is removed when the preflight told the truth |
| ClientLifecycle.BlamingAnotherStageHides | src/onboarding/application/client-lifecycle.ts:210-213 | a plugin error that blames the entry's stage leaves exactly the entry behind, a provisioning failure that keeps its credential exactly the credential; blaming its own stage leaves nothing |
| ClientLifecycle.ReportedCompensated | src/onboarding/application/client-lifecycle.ts:119-317 | both installations, started on an empty client, are reported failed and compensated, and end with that one component on it |
| ClientLifecycle.UninstallClientLifecycle | src/onboarding/application/client-lifecycle.ts:345-423 | owned components go in order up to the first whose removal is aborted, throws or is not verified; the exact client then; nothing is gone before what goes before it; a conflict or stale identity stops everything before the first removal |
| ClientLifecycle.RemovalOrderExactly | src/onboarding/application/client-lifecycle.ts:367-400 | the components to remove are exactly those observed as owned, each once: plugin, marketplace, entry, credential; those retained are exactly the external ones |
| SecretRotation.CreateCandidate | src/onboarding/application/service-secret-rotation.ts:178-209 | a candidate is ready exactly when every call works and none was there; a candidate that was there is never touched |
| SecretRotation.Swap | src/onboarding/application/service-secret-rotation.ts:230-251 | which names hold which secret after every combination of failures of link, rename, synchronisation and their inverses, and in exactly which one the old secret is lost |
| SecretRotation.RollBack | src/onboarding/application/service-secret-rotation.ts:271-302 | rolling back succeeds exactly when its calls work; the directory wherever it stops; it restores the old secret or leaves it retained, and never loses it |
| SecretRotation.RotateServiceSecret | src/onboarding/application/service-secret-rotation.ts:107-303 | every outcome under its exact condition, with the exact directory it leaves; in every state the old secret is at the current or retained path, except exactly when the synchronisation after the swap fails and its handler's inverses work |
| SecretRotation.OneFailedSyncLoses | src/onboarding/application/service-secret-rotation.ts:235-248 | one failed synchronisation ends in a reported failure and a directory with none of the three names; had the handler's unlink failed too, the old secret would be left at the retained path |
| ActivationTrace.ValidateActivationTrace | src/evaluation/activation-corpus-runner.ts:581-662 | the online checker refuses traces of more than one hundred events and reports each code once, exactly the codes that the calls of some task have, in the order of their first causes |
| ActivationTrace.CodesExactly | src/evaluation/activation-corpus-runner.ts:608-655 | for each of the seven codes, which earlier calls of the same task make a call its cause |
| ActivationTrace.NoteCodes | src/evaluation/activation-corpus-runner.ts:608-651 | the codes added for an event are exactly those it earns after the earlier calls of its task, in the order of the checks |
| ActivationTrace.Update | src/evaluation/activation-corpus-runner.ts:617-655 | the record of a task keeps meaning what its calls so far amount to |
| ActivationTrace.NoCodeExactly | src/evaluation/activation-corpus-runner.ts:608-655 | the calls of one task have no code exactly when they are at most one search, then at most one load, then reads of distinct paths, all but the last successful, without escalation |
| ActivationTrace.ValidTaskByTask | src/evaluation/activation-corpus-runner.ts:598-662 | a trace is valid exactly when the calls of each task, taken alone, are well formed |
| ActivationTrace.InterleavingInvariant | src/evaluation/activation-corpus-runner.ts:598-656 | traces with the same calls per task have the same codes, however they interleave |
| ActivationTrace.NeighboursCommute | src/evaluation/activation-corpus-runner.ts:598-656 | swapping two neighbouring calls of different tasks changes no code |

## Left out

- HTTP, database stores, Docker, process spawning, the MCP transport and command lines: plumbing without laws of its own.
- Lease acquisition and the tables of synchronisation runs: the statements that grant leases are not in the repository's code.
- SHA-256, Unicode normalisation, locale collation, ISO date-time and safe-path checks: parameters; only the stated laws are used.
- YAML, Markdown and licence detection: a staged candidate arrives parsed, or not, with its findings.
- Resource reading inside synchronisation: one outcome per candidate, its resources or its finding.
- The kind of subject a synchronisation finding names: it is constant per code and nothing reads it.
- Negative zero: the printer writes it as 0, like zero, and the model's numbers are integers without it.
- Numbers with a fraction or exponent in the JSON parser: no accepted log holds one, and the parser refuses them.
- Record keys that JavaScript treats specially, such as its prototype key: records are plain key and value lists.
- JSON nesting depth and engine limits: texts are bounded by the stated size limit only.
- Cancellation and deadlines: one more fault of the call they interrupt; observing during recovery has no effect to cut.
- Partially written journal lines and file-system durability: an append or rename happens or does not.
- Timestamps of journal entries: nothing reads them.
- The sharing of one limiter between concurrent requests: calls take effect one at a time, as in the single-threaded runtime.
- Floating-point rounding in the limiters: levels are exact reals.
- The fallback of the global limiter's policy to the per-key policy: a choice of arguments.
- Summaries, snapshot identifiers and the component table in installation results: text built from the decision.
- The contents of profile snapshots: whether the profile still matches is a free choice of every call.
- Services that take up a rotated secret: they do not touch the files, and may fail.
- Operation previews, confirmation and the preview identity of a secret: one accepted or refused check.
- The activation corpus, its metrics and its fixtures: sequential checks over constants.
- Ranking: its scores and the order of search results are not modelled.
- The unified catalog: how the built-in and the external catalog are merged is not modelled.
- The revision cache: which revision is evicted first is not modelled.
- SourceSync.Propagate: does not say which of several unavailable dependencies is reported, which depends on the order of the candidates.
- CandidateOrder.OrderIsIrrelevant: does not say that a quarantined candidate has the same findings in both listings, because which names of a cycle are marked depends on the order of the candidates.
