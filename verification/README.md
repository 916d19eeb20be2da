# Insurance Hub operations tooling: verified model

A Dafny model of the protocols and algorithms in the repository's Python operations tooling, with
proofs of what each of them keeps. `dafny verify dfyconfig.toml` checks the whole project.

The environment is adversarial throughout. A remote operation completes, raises without effect, or
raises although it took effect (`Common.Fault`); threads complete in any order; a context may be sent
any request; a file system may show anything. A property is stated for every such behaviour, and
where success needs an undisturbed environment, for exactly the states in which it then succeeds.

| Component | Files |
|---|---|
| Credential URLs; Product administration roles; rotation; the reader role | `CredentialUrl`, `Administration`, `Rotation`, `ReaderRole` |
| Fixed-arrival load stage and its assessment | `LoadStage`, `Assessment` |
| Shared-library validation: selection, registration, plan, candidate context, validation, reconciliation, end to end | `Selection`, `Registration`, `Planner`, `PlanProperties`, `PlannedChanges`, `HostedException`, `CandidateProtocol`, `Validation`, `Reconciliation`, `Pipeline` |
| Release tag publication | `TagPublication` |
| The two comparators of Product bodies | `PythonRepr`, `CanonicalJson`, `BodyComparison` |
| Changed lines of a diff, and coverage | `DiffText`, `UnifiedDiff`, `DiffNumbering`, `DiffExactness`, `Coverage` |
| Bounded commands and workflow deadlines | `ProcessRunner`, `WorkflowDeadline` |
| VM snapshots | `VmSnapshot` |
| Label parser and block rewriting of the Alloy harness | `AlloyText` |
| Shared vocabulary | `Common`, `Sorting`, `Paths`, `Texts` |

## What the code does not promise

Each of these is proved here, with the exact condition where there is one, and with an input that
shows it wherever the condition does not already name one (the member in parentheses).

- `provision` (administration.py:393) and the reader's `provision` (reader.py:588) issue their grant
  transaction outside the protected part: a transaction that raises after committing is not
  compensated. For the administration script a later run accepts what it leaves exactly when all
  roles were there before (`Administration.GrantLost`), and can then still succeed only if the
  enrolment document was stored, since otherwise the marker names a document that nobody has
  (`AfterLostGrant`; `LostGrantStrands` is the empty target). For the reader, re-running heals a
  healable target exactly unless there was no Secret before and either the grant's reply was lost or
  both the put and the compensation were lost without effect (`ReaderRole.LostGrantStrands`); so a
  target survives every pattern of failures exactly when its Secret was there before.
- A compensated run leaves a Secret behind exactly when the first operation to fail is the put of a
  missing Secret that fails after taking effect: it is not in `written` (`Administration.Lost`;
  `LostPutLeavesOrphan` shows one). If the Secret is a role's, every later run is refused.
- A rotation's "previous credentials restored" restores the passwords the Secrets held. The database
  is as before exactly when it agreed with them (`Rotation.RestoredDrift`).
- A stage whose count five does not divide is rejected by `assess` whatever its latencies.
- `_exists` (qa.py:24-25) takes a failing query for an absent VM: a normal return has snapshotted
  exactly the VMs whose query got through, and it is normal exactly when no such query was cut short
  and every later command completed (`VmSnapshot.QueryFailureSkips`).
- `changed_lines` is exact exactly when no Go file has an added text starting with `++`, nor in a
  hunk a removed text starting with `--` before an addition. This holds as long as no line added to
  another file reads like a Go file's header with a later hunk of that file to come
  (`DiffExactness.StrayHeaderMisleads`), and every text is one line to `splitlines`
  (`DiffExactness.FormFeedCountsTwice`).
- `block_range` is right exactly when an opening brace follows the marker
  (`AlloyText.MarkerWithoutBlock`).
- A hosted plan is part of the full plan except when the library is registered as its own consumer
  and changed without library code: the directory itself, or a file there named by dots and `md`
  (`HostedException.HostedOutsideFull`).
- With a consumer record for the library's own directory no release is ever accepted.

## Model

| member | source | states |
|---|---|---|
| CredentialUrl.QuoteRoundTrip | scripts/product_deployment/administration.py:42-71 | percent encoding a password and decoding it gives the password back |
| CredentialUrl.SplitCompose | scripts/product_deployment/administration.py:50-71 | splitting a URL composed of well-formed parts returns those parts |
| CredentialUrl.EncodedDecodes | scripts/product_deployment/administration.py:42-71 | a generated credential is recovered from its database URL |
| CredentialUrl.DecodesExactlyTheEncoded | scripts/product_deployment/administration.py:50-71 | the decoder accepts exactly the URLs the encoder makes of credentials, each with its one password; the same for the reader's pair (reader.py:70-97) |
| CredentialUrl.UrlText | scripts/product_deployment/administration.py:42-47 | the text of a credential's URL, in which nothing is escaped |
| Administration.CompensationUndoesProvisioning | scripts/product_deployment/administration.py:340-367 | after the provisioning transaction the compensating one commits and restores roles, passwords, memberships and marker |
| Administration.GrantReachesContract | scripts/product_deployment/administration.py:264-306 | the provisioning transaction keeps every existing credential and reaches the role contract exactly when no foreign marker stands |
| Administration.NothingToCompensate | scripts/product_deployment/administration.py:418-418 | where the compensation is skipped, the transaction had changed no identity |
| Administration.DatabaseAfterCompensation | scripts/product_deployment/administration.py:410-445 | whether or not the compensating transaction took effect, existing credentials stand, and an agreeing readback means every identity is the predecessor's |
| Administration.SecretsAfterDeletion | scripts/product_deployment/administration.py:410-416 | best-effort deletion never touches an earlier Secret; when all written names are gone, only an orphan can remain |
| Administration.LostAtFirst | scripts/product_deployment/administration.py:397-408 | the first failing operation decides which put, if any, is lost |
| Administration.LostGrantLeaves | scripts/product_deployment/administration.py:384-393 | what a grant with a lost reply leaves is accepted by a later run exactly when all roles were there before |
| Administration.CompensationLeaves | scripts/product_deployment/administration.py:384-446 | what a compensated run leaves is accepted by a later run exactly when no role's Secret was lost |
| Administration.AfterLostGrant | scripts/product_deployment/administration.py:384-393 | after a lost grant a later run can succeed exactly when all roles were there and the document is known |
| Administration.SameIdentitiesAlike | scripts/product_deployment/administration.py:370-392 | what a later run can do depends on the identities only, not on what compensation leaves changed |
| Administration.CreatedCredentials | scripts/product_deployment/administration.py:336-337 | new roles get the generated passwords and their Secrets carry them |
| Administration.ReachedIsProvisionable | scripts/product_deployment/administration.py:370-400 | what a run reached is accepted by every later run |
| Administration.Cluster.ReadOrCreateInputs | scripts/product_deployment/administration.py:309-333 | stored passwords and target document win over generated ones; it raises on every Secret that does not decode |
| Administration.Cluster.WriteMissingSecrets | scripts/product_deployment/administration.py:394-408 | it succeeds exactly under the contract when none of its operations fails; exactly the absent Secrets are written, in order, `written` names those whose put returned, and the put it cannot know of is the first operation to fail, after taking effect |
| Administration.Cluster.DeleteWritten | scripts/product_deployment/administration.py:411-415 | deletes only written names; a deletion may fail silently |
| Administration.Cluster.Compensate | scripts/product_deployment/administration.py:410-445 | "compensated" with the branch taken means both stores read back as before |
| Administration.Cluster.Provision | scripts/product_deployment/administration.py:370-446 | for every failure pattern: a normal return exactly on the provisionable states when none of the run's operations fails, and then the contract holds, with matching credentials and the CA in every role's Secret; no exit drops a role, changes a credential or touches an earlier Secret; the compensated exit restores identities and Secrets but for a lost put, which is characterised exactly; when the grant is what fails, what it leaves, and when a later run accepts that; one failure after the grant is always compensated; a complete target is left alone |
| Administration.Cluster.ProvisionTwice | scripts/product_deployment/administration.py:370-446 | whatever disturbs a second run, after a first normal return the contract holds and the first run's credentials stand in both stores |
| Administration.Cluster.ProvisionRetried | scripts/product_deployment/administration.py:370-446 | after a first run with at most one failure of any kind, an undisturbed second run succeeds, wherever the first could have, exactly unless that failure strands the target |
| Administration.LostGrantStrands | scripts/product_deployment/administration.py:393-394 | an empty target whose grant loses its reply: roles without Secrets, and the next run is refused |
| Administration.LostPutLeavesOrphan | scripts/product_deployment/administration.py:397-417 | an empty target whose first put loses its reply: compensated, and the Secret is still there |
| Rotation.RestoredDatabase | scripts/product_deployment/administration.py:541-565 | recovery from any intermediate database gives the Secrets' passwords, the old database exactly when it agreed with them |
| Rotation.RestoredSecrets | scripts/product_deployment/administration.py:550-569 | putting both former Secrets back from any intermediate state gives the old Secrets |
| Rotation.VerifiedAfterApply | scripts/product_deployment/administration.py:449-518 | with the replacements in both stores, `verify` accepts exactly the rotatable states |
| Rotation.Verify | scripts/product_deployment/administration.py:449-518 | acceptance exactly when Secrets are complete, the role contract holds, each role logs in with its Secret's password, and none of the operations fails |
| Rotation.ApplyOrRecover | scripts/product_deployment/administration.py:541-576 | the protected part and its handler: both stores new, or both restored, or named incomplete with each credential old or new |
| Rotation.Rotate | scripts/product_deployment/administration.py:521-577 | rotation is failure-atomic although a failed operation may have applied; every exit after the first change leaves the old passwords in the recovery file; a normal return exactly on the rotatable states when no operation fails, the database being under contract; undisturbed, restoration on the other complete ones |
| Rotation.RestoredDrift | scripts/product_deployment/administration.py:556-576 | drifted roles and a failing verification: "restored" leaves a database that is not the old one |
| ReaderRole.Target.Verify | scripts/product_deployment/reader.py:534-563 | acceptance exactly when the role logs in with its Secret's password within the boundary and none of the operations fails |
| ReaderRole.Target.Provision | scripts/product_deployment/reader.py:566-612 | success on exactly the healable states when none of its operations fails; it never changes a stored Secret or a present password; a new role and a new Secret carry the generated password; exactly which failures make the grant fail and which strand a healable target |
| ReaderRole.Target.ProvisionAgain | scripts/product_deployment/reader.py:566-612 | a failure-free second run ends with role and Secret agreeing exactly unless the first stranded the role, and always when there was a Secret before |
| ReaderRole.LostGrantStrands | scripts/product_deployment/reader.py:586-589 | every healable target without a Secret is stranded by one lost reply, and no later run succeeds |
| Sorting.SortSorts | scripts/product_qualification/measure.py:136-139 | the stable sort sorts under every total preorder |
| Sorting.SortedUnique | scripts/product_baseline/compare_http.py:24-29 | the sorted form of a collection is unique when the order tells its elements apart |
| LoadStage.Stage.Collect | scripts/product_qualification/measure.py:216-269 | completions in any order move futures from the table to the samples, each once, and it stops at the first bad sample |
| LoadStage.Stage.Arrive | scripts/product_qualification/measure.py:271-293 | one arrival extends the account by its index, submitted or unserved; never more than four are outstanding |
| LoadStage.Stage.Drain | scripts/product_qualification/measure.py:294-299 | it ends, and quietly only with an empty table |
| LoadStage.Stage.Abort | scripts/product_qualification/measure.py:300-317 | every outstanding request gets its one aborted sample |
| LoadStage.Stage.Run | scripts/product_qualification/measure.py:199-317 | sample conservation: on every exit the samples cover exactly a prefix of the schedule, one per index with its operation and due time; no request is submitted before it is due or a period after; a normal return means that every request of the schedule was submitted and answered in time with status 200 and a matching body; it is interrupted exactly by an interruption, and it fails exactly for a failing observer, a bad reply or an unserved arrival |
| LoadStage.ClassifyReflects | scripts/product_qualification/measure.py:216-269 | a sample is correct exactly when it is a reply with status 200 and a matching body, dispatched and completed in time, and it records what was observed |
| LoadStage.ServedAreGood | scripts/product_qualification/measure.py:216-269 | in an account whose samples reflect what was heard, served samples come from good replies |
| LoadStage.FaultyHasCause | scripts/product_qualification/measure.py:216-299 | a sample that is not served has a cause: a bad reply, or an arrival that was not admitted |
| LoadStage.RecordKeepsAccount | scripts/product_qualification/measure.py:216-269 | recording the sample of an outstanding arrival keeps the account |
| Assessment.NearestRankHasRank | scripts/product_qualification/measure.py:136-139 | the percentile is an element such that at least p per cent of the values are at or below it and fewer are below |
| Assessment.RankIsCeiling | scripts/product_qualification/measure.py:136-139 | the rank is the share of the count rounded up |
| Assessment.RankDetermines | scripts/product_qualification/measure.py:136-139 | a rank determines the value, and a larger rank one at least as large |
| Assessment.PercentilesOrdered | scripts/product_qualification/measure.py:142-166 | median <= p95 <= p99 <= max |
| Assessment.GroupReports | scripts/product_qualification/measure.py:142-166 | what the figures of a group say of its values: half, nineteen of twenty and 99 of a hundred are at or below them, and fewer strictly below |
| Assessment.TotalsAddUp | scripts/product_qualification/measure.py:142-152 | every scheduled request is counted once, as attempted or unserved |
| Assessment.Summarize | scripts/product_qualification/measure.py:142-166 | one group for exactly the operations with correct samples, and the totals |
| Assessment.OrderedSchedule | scripts/product_qualification/measure.py:169-196 | sorted by index, an account is the schedule in order |
| Assessment.StructuredExact | scripts/product_qualification/measure.py:169-185 | the structural checks on the sorted samples hold exactly for complete schedules: one correct sample per index with its operation, each due within ten milliseconds of its place after the first |
| Assessment.AssessExact | scripts/product_qualification/measure.py:169-196 | `assess` accepts exactly the complete schedules with a fifth of the requests per operation and both percentile limits |
| Assessment.LatenciesAreTheCorrectOnes | scripts/product_qualification/measure.py:142-150 | the latencies of an operation are those of its correct samples, each as often as it occurs |
| Assessment.AccountPerOperation | scripts/product_qualification/measure.py:131-133 | how many of the first n arrivals are of each operation |
| Assessment.NormalReturnIsStructured | scripts/product_qualification/measure.py:169-185 | all structural checks hold after a normal return |
| Assessment.AssessAfterNormalReturn | scripts/product_qualification/measure.py:169-196 | after a normal return `assess` accepts exactly when five divides the count and the latency limits hold |
| Assessment.RunAndAssess | scripts/product_qualification/measure.py:169-317 | scheduler and assessor together: only latency, or an uneven count, can be held against a normal return |
| TagPublication.Peel | scripts/go/shared_release.py:82-92 | follows at most four annotations to the commit |
| TagPublication.ResolveExact | scripts/go/shared_release.py:82-92 | a tag resolves to a commit exactly when at most four annotations are around it |
| TagPublication.InvariantHolds | scripts/go/shared_release.py:95-108 | what each publisher may conclude at each point of any interleaving |
| TagPublication.TagIsImmutable | scripts/go/shared_release.py:95-108 | a set tag never changes |
| TagPublication.SuccessIsTheTag | scripts/go/shared_release.py:95-108 | every successful publisher's commit is the tag's value for good |
| TagPublication.NoTwoWinners | scripts/go/shared_release.py:95-108 | publishers of different commits never both succeed |
| TagPublication.CleanOutcomeIsExact | scripts/go/shared_release.py:95-108 | with release history and no failed request, success exactly when the tag is the publisher's commit |
| TagPublication.ReadbackAgrees | scripts/go/shared_release.py:108-108 | the final readback fails only in transport |
| TagPublication.TagHasAnAuthor | scripts/go/shared_release.py:95-108 | a tag that appears is the commit of some publisher |
| TagPublication.ProgressMeasure | scripts/go/shared_release.py:95-108 | a publisher is done after at most five requests |
| TagPublication.PublishTag | scripts/go/shared_release.py:95-108 | the publisher as written, among unseen others: success means the tag is this commit, and with all replies exactly then |
| Selection.LibraryGap | scripts/go/select_pr_module.py:46-48 | which paths count as a change of the library but not as library code (shared_registration.py:402-404) |
| Selection.TouchesExact | scripts/go/shared_registration.py:379-390 | which files count for a root other than the library's, at any depth and read from their names: Go files, root configuration, protocol definitions, generated documents, the SQL directory and test data of a service, a library named as one or the template, and no others |
| Selection.LibraryTouchesExact | scripts/go/shared_registration.py:379-390 | for the library every file counts that is not Markdown |
| Selection.QualifyingExact | scripts/go/select_pr_module.py:51-70 | the test of a path's text, in terms of its names |
| Selection.SuffixExact | scripts/go/select_pr_module.py:51-70 | a name has an extension for its suffix exactly when it ends in it with something other than dots before |
| Selection.ServiceOwner | scripts/go/select_pr_module.py:35-43 | an input of a service gate belongs to the directory of its first two names |
| Selection.MdSuffix | scripts/go/select_pr_module.py:46-48 | a name ending in `.md` has that suffix unless only dots precede `md` |
| Registration.Schema | scripts/go/shared_registration.py:82-149 | accepts exactly the records with distinct identities, all required phases, a binding for exactly each phase and a reason for exactly each other one |
| Registration.Workflows | scripts/go/shared_registration.py:137-149 | accepts exactly non-empty lists of distinct, proper workflow bindings |
| Registration.PhaseSettled | scripts/go/shared_registration.py:108-136 | each of the twelve phases is bound to a target in both resolutions or excused for a reason, never both, and seven cannot be excused |
| Registration.SafeRelativeExact | scripts/go/shared_support.py:54-64 | a safe path is names joined by single slashes, none a dot or two, without blanks; or the dot |
| Planner.PlanTrees | scripts/go/shared_registration.py:349-460 | raises exactly on the unplannable changes; otherwise obligations, inputs and manifest are those of the context, and a changed module is obliged exactly under the full profile or as the library |
| Planner.CollectObligations | scripts/go/shared_registration.py:406-438 | the loop over modules appends exactly each planned module's obligations |
| PlanProperties.PlanDemands | scripts/go/shared_registration.py:406-438 | an obligation is in the plan exactly when some planned module demands it, with its mode, phase and target |
| PlanProperties.PlanDistinct | scripts/go/shared_registration.py:406-438 | obligation keys are distinct and each module has one mode |
| PlanProperties.RootWorkCoversAll | scripts/go/shared_registration.py:399-414 | a full plan with root changes obliges every module |
| PlanProperties.LibraryChangeObligesConsumers | scripts/go/shared_registration.py:406-438 | a library change under the full profile obliges, for each active consumer, exactly its candidate phases at their owning targets |
| PlanProperties.HostedWithinFull | scripts/go/shared_registration.py:406-438 | the hosted plan's obligations are among the full plan's, with the one exact exception |
| PlanProperties.HostedWithinFullByPaths | scripts/go/shared_registration.py:349-437 | the same in terms of the changed paths |
| PlannedChanges.ChangedExact | scripts/go/shared_registration.py:379-390 | the changed modules, read from the names of the changed files |
| PlannedChanges.ServiceChangePlanned | scripts/go/shared_registration.py:391-443 | a plannable change of a service's input changes that module alone, and obliges it to exactly the phases of its record, or the gate, in normal mode under the full profile, and to nothing under the hosted one |
| PlannedChanges.HostedAsksConsumers | scripts/go/shared_registration.py:407-443 | a hosted plan asks an unchanged consumer for its build and unit phases against the candidate exactly when library code changed |
| PlannedChanges.RootInputExact | scripts/go/shared_registration.py:400-402 | which files are root work, read from their names |
| PlannedChanges.RootWorkExact | scripts/go/shared_registration.py:400-402 | a change is root work exactly when one of its files is |
| HostedException.HostedOutsideFull | scripts/go/shared_registration.py:349-437 | a plannable change whose hosted plan is not within its full plan |
| CandidateProtocol.Granted | scripts/go/shared_candidate.py:144-168 | a granted request extends the trace of a context by one lawful event |
| CandidateProtocol.ReceiptWithinGroup | scripts/go/shared_candidate.py:144-168 | every receipt is for a phase begun earlier in the same target group, with one begin and one end |
| CandidateProtocol.Candidate.Handle | scripts/go/shared_candidate.py:144-168 | a request is granted exactly when token, phase, directory, operation, history and verification agree; then the locks and sources found are those of construction; refused requests change nothing; a receipt carries the identities fixed at construction |
| CandidateProtocol.Candidate.Activate | scripts/go/shared_candidate.py:271-273 | moving to a group of new phases keeps the groups disjoint and the trace lawful |
| CandidateProtocol.Candidate.Serve | scripts/go/shared_candidate.py:171-186 | over any sequence of requests a phase of the group is started exactly when properly begun, has a receipt exactly when properly ended after that, and every event and receipt is the work of a proper request; receipts are only added |
| Validation.RunGates | scripts/go/shared_candidate.py:306-312 | every target is run once, in ascending order, until one fails |
| Validation.ReceiptMatches | scripts/go/shared_candidate.py:73-83 | what the context verified is what the reconciler asks of a candidate report |
| Validation.CandidateFits | scripts/go/shared_candidate.py:288-295 | a report built on a receipt fits the plan |
| Validation.ReceiptsFulfil | scripts/go/shared_candidate.py:288-292 | a phase of the group has a receipt exactly when it was properly begun and ended |
| Validation.NormalFits | scripts/go/shared_candidate.py:314-327 | a normal report fits the plan |
| Validation.ValidateCandidate | scripts/go/shared_candidate.py:264-300 | it returns exactly when every target passes, every phase is begun and ended by requests in its group and all verifications agree; then each obligation is answered once and the context has a lawful trace through the groups of the targets run, every report carrying the receipt of its phase |
| Validation.Validate | scripts/go/shared_candidate.py:239-329 | it returns exactly when the module is planned in one mode, every step passes and, in candidate mode, the requests cooperate; then it answers exactly the module's obligations, each with a report that fits, after running each owning target once in ascending order |
| Pipeline.ValidateModules | scripts/go/shared_cli.py:65-75 | every planned module is validated, and reports come out exactly when each is planned in one mode, cooperates and passes; then every owning target was run |
| Reconciliation.Reconcile | scripts/go/shared_registration.py:476-531 | accepts exactly when every report fits and the wanted keys are answered once each |
| Reconciliation.AcceptsExactly | scripts/go/shared_registration.py:476-531 | for distinct keys, acceptance is a one-to-one correspondence of reports and obligations |
| Reconciliation.AcceptedEvidence | scripts/go/shared_registration.py:484-530 | every accepted report passed an obligation of the plan at its target, on the plan's commits and with its digests; a normal one without a replaced library |
| Reconciliation.CandidateEvidence | scripts/go/shared_registration.py:502-526 | an accepted candidate report took the library from a directory of that name and built its main module with the alternate manifest there |
| Reconciliation.AcceptanceIgnoresOrder | scripts/go/shared_registration.py:476-531 | acceptance is independent of report order |
| Reconciliation.FitsInSlice | scripts/go/shared_cli.py:122-129 | a report fits a module's share exactly when it is of that module and fits the plan |
| Reconciliation.AcceptanceSplits | scripts/go/shared_cli.py:122-129 | the whole plan is accepted exactly when all report modules are planned and each share accepts its own reports |
| Pipeline.ValidateAll | scripts/go/shared_cli.py:65-76 | acceptance exactly when each module is planned in one mode, every candidate validation meets cooperation and every step passes; the reconciler never rejects what validation produced |
| Pipeline.PlanAndValidate | scripts/go/shared_cli.py:36-76 | end to end: a plannable change is accepted exactly when every step passes, root checks included, and every candidate validation meets cooperation; then the owning target of every obligation was run, and with root work the root checks before them |
| Pipeline.ReleaseExpected | scripts/go/shared_cli.py:80-114 | a release asks for the library's phases and every candidate phase of every consumer, with distinct keys and the commit's identities |
| Pipeline.ReleaseDistinct | scripts/go/shared_cli.py:86-100 | release obligations have distinct keys, normal only for the library |
| Pipeline.TwoModes | scripts/go/shared_cli.py:86-100 | with a record for the library's own directory the release asks for it in two modes |
| Pipeline.OneModeRelease | scripts/go/shared_cli.py:86-100 | without such a record each module is asked for in one mode |
| Pipeline.ReleaseAndValidate | scripts/go/shared_cli.py:80-129 | a planned release is accepted exactly when there is no such record, every step passes and every candidate validation meets cooperation |
| PythonRepr.ReprPrefixFree | scripts/product_baseline/compare_http.py:28-29 | no value's `repr` begins another's, so the sort key tells forms apart |
| PythonRepr.StringPrefixFree | scripts/product_baseline/compare_http.py:28-29 | quoting and escaping of strings is unambiguous, whatever counts as printable |
| CanonicalJson.CanonicalDecides | scripts/product_baseline/compare_http.py:23-37 | two values have the same form exactly when they are equal up to the order of object members |
| CanonicalJson.SortedPairs | scripts/product_baseline/compare_http.py:24-25 | sorting members by key forgets their order and nothing else |
| CanonicalJson.BodiesDecided | scripts/product_baseline/compare_http.py:23-45 | for whole bodies, a top-level list is compared as a multiset of equivalent items |
| BodyComparison.ByCode | scripts/product_qualification/core.py:45-56 | accepts exactly non-empty lists of objects with distinct, non-empty codes, and indexes them by code |
| BodyComparison.CodeExact | scripts/product_qualification/core.py:49-53 | an object with distinct keys has a code exactly when a member `code` is that non-empty string |
| BodyComparison.CatalogsDecided | scripts/product_qualification/core.py:59-67 | for two catalogs, matching by code and comparing sorted forms agree |
| BodyComparison.CompareBody | scripts/product_qualification/core.py:59-67 | succeeds exactly when lists are catalogs with equal top-level forms, other values when their forms are equal |
| DiffText.HeaderRead | scripts/go/patch_coverage.py:18-18 | a rendered hunk header is read back, although the pattern takes the last match on the line |
| DiffText.SplitJoin | scripts/go/patch_coverage.py:74-74 | one-line texts survive joining and `splitlines` |
| DiffText.SplitBreak | scripts/go/patch_coverage.py:74-74 | a line ends at its first break, and a carriage return with its newline is one |
| UnifiedDiff.ChangedLines | scripts/go/patch_coverage.py:71-93 | the loop returns the coordinates recorded line by line |
| DiffNumbering.DiffRead | scripts/go/patch_coverage.py:71-93 | over any files and hunks the log is what the line counter says, in order |
| DiffNumbering.DiffBounded | scripts/go/patch_coverage.py:86-89 | an addition starting with `++` is never recorded |
| DiffNumbering.ReadingsAgainst | scripts/go/patch_coverage.py:86-92 | the counter never runs behind the new file, and is right exactly when no `--` removal precedes an addition |
| DiffNumbering.PositionsInMark | scripts/go/patch_coverage.py:71-93 | the true positions are those of the added lines of the new file |
| DiffExactness.TruthsAreAdded | scripts/go/patch_coverage.py:71-93 | they are listed once each over all files |
| DiffExactness.AheadSameSet | scripts/go/patch_coverage.py:71-93 | numbers that run ahead never add up to the right set by accident |
| DiffExactness.NumberingExact | scripts/go/patch_coverage.py:71-93 | for every edit script the result is exactly the new-file positions of added Go lines if and only if every Go file is legible |
| DiffExactness.StrayHeaderMisleads | scripts/go/patch_coverage.py:75-78 | an input on which a line added to another file passes for a header |
| DiffExactness.FormFeedCountsTwice | scripts/go/patch_coverage.py:74-93 | an input on which an added text with a form feed shifts the next addition by one |
| Coverage.ProfileLines | scripts/go/patch_coverage.py:135-184 | raises exactly on unreadable profiles; executable and covered lines are those some entry spans, and covered lines are executable |
| Coverage.PlaceExact | scripts/go/patch_coverage.py:163-170 | the file of an entry is what follows the module's directory in its import path |
| Coverage.ExcludedExact | scripts/go/patch_coverage.py:171-176 | a file is excluded exactly when its path is an excluded one or lies below it |
| Coverage.OrderIrrelevant | scripts/go/patch_coverage.py:135-184 | the measured lines depend on the set of entries only |
| Coverage.LinesMoved | scripts/go/patch_coverage.py:152-183 | permuting the lines of all profiles, within and across files, keeps the entries |
| Coverage.ProfilesPermuted | scripts/go/patch_coverage.py:144-151 | permuting the profiles keeps the entries |
| Coverage.SpansByPosition | scripts/go/patch_coverage.py:163-183 | a block counts the lines of which some column comes before its exclusive end |
| Coverage.EvaluateIsShare | scripts/go/patch_coverage.py:187-199 | the verdict is negative exactly when the share of covered lines among the changed executable ones is below the minimum, and there are any |
| Coverage.FullCoverage | scripts/go/patch_coverage.py:187-199 | a minimum of 100 accepts exactly when every changed executable line is covered |
| Coverage.MoreCoverageHelps | scripts/go/patch_coverage.py:187-199 | covering more never turns acceptance into rejection |
| ProcessRunner.Child.WaitForGroup | scripts/python/process_runner.py:32-49 | the polling loop ends by its deadline, and its answer is positive exactly when the child was reaped with the group unseen next to that |
| ProcessRunner.Child.Terminate | scripts/python/process_runner.py:52-68 | ends within the teardown budget; SIGTERM first, and SIGKILL exactly when the group was not seen gone, after half the budget |
| ProcessRunner.Child.Work | scripts/python/process_runner.py:100-124 | the work loop ends by its deadline, hands input over once, and every wait but the last timed out; heartbeats are neither too close nor missing |
| ProcessRunner.Child.RunCommand | scripts/python/process_runner.py:71-130 | always ends within work plus teardown; the last wait for the command decides, the earlier ones having timed out; a result means the process group was seen gone, and only a teardown that broke or used up its budget withholds it |
| ProcessRunner.TicksDecrease | scripts/python/process_runner.py:32-49 | the termination measure of both polling loops |
| WorkflowDeadline.NestingTakesTheEarliest | k8s/scripts/admin/runtime.py:50-73 | however deep workflows nest, the earliest deadline of the chain is in force, under the name of the outermost workflow that set it |
| WorkflowDeadline.Commands.RemainingTimeout | k8s/scripts/admin/runtime.py:240-243 | the lesser of limit and remaining time, and when it raises |
| WorkflowDeadline.Commands.Run | k8s/scripts/admin/runtime.py:257-284 | no command starts after the deadline or ends later than the grace period after it; a passed deadline is always reported as such; output is that of a child that succeeded and left nothing running, and a child that finished with success is output unless its teardown broke or used up its budget |
| WorkflowDeadline.Commands.PerformAll | k8s/scripts/admin/runtime.py:245-284 | any nesting of commands and cleanups ends within the deadline's grace plus the cleanups' budgets, and commands are run in order until one does not pass |
| WorkflowDeadline.CommandsAddNothing | k8s/scripts/admin/runtime.py:245-284 | without cleanups nothing is added to the grace |
| WorkflowDeadline.Commands.WithCleanupBudget | k8s/scripts/admin/runtime.py:245-255 | a cleanup takes at most its budget and one grace, whatever its commands; the previous deadline and its export are restored |
| VmSnapshot.Fleet.Existing | k8s/scripts/admin/qa.py:24-25 | a node counts as existing exactly when its query got through |
| VmSnapshot.Fleet.SnapshotAll | k8s/scripts/admin/qa.py:475-487 | reported snapshots exist; a previous one disappears unreported only if its deletion raised after taking effect |
| VmSnapshot.Fleet.ResumeAll | k8s/scripts/admin/qa.py:490-497 | every paused node runs again or is named |
| VmSnapshot.Fleet.PauseAll | k8s/scripts/admin/qa.py:470-472 | after an undisturbed loop every running VM is paused, and a node is noted before its command |
| VmSnapshot.Fleet.PauseSnapshotResume | k8s/scripts/admin/qa.py:469-517 | from the first pause on, it returns normally exactly when nothing is disturbed |
| VmSnapshot.Fleet.SnapshotNodes | k8s/scripts/admin/qa.py:461-517 | for every failure pattern: no snapshot is taken of a running VM, or while another runs whose existence query got through; whoever ran runs again unless named; a normal return snapshotted exactly the nodes whose existence query got through, and when it is normal; nothing else changes |
| VmSnapshot.QueryFailureSkips | k8s/scripts/admin/qa.py:462-462 | a running VM whose existence query fails: a normal return without its snapshot |
| AlloyText.ParseLabels | k8s/scripts/alloy/backend_ingestion.py:108-125 | the parsing loop terminates and computes the labels of the text |
| AlloyText.PrintedParses | k8s/scripts/alloy/backend_ingestion.py:108-125 | printed labels are read back one by one |
| AlloyText.LabelRoundTrip | k8s/scripts/alloy/backend_ingestion.py:108-125 | printing and parsing gives the same map exactly when names are distinct and the only control character in a value is newline |
| AlloyText.SpellingRead | k8s/scripts/alloy/backend_ingestion.py:118-118 | however the characters of a value are escaped in JSON, it is read back |
| AlloyText.BlockRange | k8s/scripts/alloy/backend_ingestion.py:164-177 | the brace-counting loop |
| AlloyText.BlockRangeExact | k8s/scripts/alloy/backend_ingestion.py:164-177 | the reported range ends the block that the first brace after the marker opens, exactly when there is one |
| AlloyText.MarkerWithoutBlock | k8s/scripts/alloy/backend_ingestion.py:164-177 | an input on which an earlier block is reported |
| AlloyText.ReplaceKeepsSurroundings | k8s/scripts/alloy/backend_ingestion.py:180-182 | replacing a block leaves everything around it, and by its own text is the identity |

## Left out

- Administration: role attributes and PUBLIC revocations, which the compensation does not restore, are a single flag; the privilege statements are their effect on the roles.
- Administration.Cluster.Provision: the put of a Secret and a transaction may have taken effect although they raised; a transaction that takes effect only after the raise has been handled is not modelled.
- Rotation.Rotate: the reader's rotation and revocation (reader.py:615 onwards) follow the same pattern and are not modelled.
- CredentialUrl.QuoteRoundTrip: characters outside ASCII are not encoded; no generated credential has one. The control-character stripping and lower-casing of `urlsplit` do not occur in accepted URLs.
- Signals between two Python statements: an interruption arrives at the waits, pauses and observers of the load stage, and at commands of the snapshot.
- LoadStage.Stage.Drain: each request ends within its own deadline, so a wait times out a bounded number of times. An exception other than the stage's own while collecting is not modelled.
- Assessment.NearestRankHasRank: quantiles are whole percents and times are reals, so the floating-point rounding of ceil(p n) and of deadlines is not modelled.
- TagPublication.PublishTag: resolving an annotated tag is one request; the form of versions and commits is not checked.
- Selection: `selection_outputs` and the coverage file names. Suffixes are those of Python 3.14; `lower` is ASCII.
- Registration: what `roots_at` and `registration_check` read from manifests, imports, Makefiles and workflow files is a flag each of a tree; blanks and identifiers are ASCII.
- Planner.PlanTrees: trees, digests and Go graphs are opaque functions of the commit.
- CandidateProtocol: a second request in parallel, since the context serves one at a time; sockets and token generation.
- Validation.Validate: the Go tool reports as main the module it was asked about, and under the guarded environment replaces nothing; the failing checks on the checkout are arbitrary failures.
- CanonicalJson: parsing. A number is its decimal text; the non-standard constants NaN and Infinity, lone surrogates and repeated keys in the text do not occur. The report of differing documents (`compare_documents`).
- UnifiedDiff: paths that git quotes or ends with a tab, and texts holding a character at which `splitlines` breaks.
- Coverage: the patterns of profile lines and the exclusions' configuration; an entry is given by its fields.
- WorkflowDeadline.Commands: the deadline's decimal text is exact, and the rest of the environment.
- ProcessRunner.Child: only waits and sleeps take time, each at most a fixed amount longer than asked.
- VmSnapshot.Fleet: the shape of the snapshot inventory, and the cleanup budget of the resume loop (`WorkflowDeadline` has it).
- AlloyText.BlockRange: the empty configuration. Escaped surrogate pairs become replacement characters.
- AlloyText.ParseLabels: sample lines and values (`parse_prometheus_exposition`) are one pattern each.
- Capture, preflight, dispatch, topology and fixture scripts: orchestration of external systems or lists of literal checks.
