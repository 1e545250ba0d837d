# A verified model of an error tracker's state-keeping components

The repository is an error tracker written in Go: it accepts events, logs, minidumps and build
artifacts, stores them, and lets operators search and assign issues. This project models the parts
of it that keep state or translate one form into another, and proves what the rest of the program
relies on. `dafny verify dfyconfig.toml` checks all of it.

| part | files |
|---|---|
| Go's string, path and identifier functions | `Text.dfy`, `Paths.dfy`, `Identifiers.dfy` |
| artifact keys and the filesystem vault | `ArtifactKeys.dfy`, `FileTree.dfy`, `VaultPaths.dfy`, `VaultContents.dfy`, `Vault.dfy`, `VaultInterleaving.dfy` |
| content identities, chunked upload and assembly | `Identities.dfy`, `ChunkStore.dfy`, `ChunkUpload.dfy` |
| import runs | `ImportLedger.dfy`, `Importer.dfy`, `ImportResumption.dfy` |
| quota admission and usage counters | `QuotaRules.dfy`, `UsageAccounting.dfy`, `UsageCounting.dfy`, `LogIngest.dfy` |
| list queries compiled to SQL conditions | `Ilike.dfy`, `SqlFilters.dfy`, `IssueSearch.dfy`, `LogSearch.dfy` |
| issue assignment | `Assignment.dfy` |
| OpenID Connect logins | `Oidc.dfy` |
| DSN printing and parsing, agreement of credentials | `Dsn.dfy`, `SentryAuth.dfy` |
| canonical events | `Tags.dfy`, `Events.dfy` |

Code that the source writes as expressions is modelled as functions, and what it promises is stated
by lemmas. Objects that the source updates in place (`Vault`, `ImportStore`, `Transaction`,
`LogStore`, `StatementBuilder`, `IssueStore`, `OidcStore`) are classes whose methods are proved
against those functions, and loops are loops. A database transaction is a method: when it returns an
error, nothing of it is kept. Every system call and every statement may fail; which one does is a
parameter. Time, fresh identifiers, random tokens and the digests are parameters too.

Main results:

- Under every interleaving of Puts cut into their system calls, with deletes, readers and crashes, a
  key's file is absent or holds the whole contents of the Put that renamed last (`AtomicPublication`,
  `PublishedIsOnePut`, `ReadersSeeOnePut`); called one at a time, the vault is a map from keys to
  bytes (`Vault.PutArtifact` and its neighbours), because paths are separate and cannot escape
  (`KeyPathsAreSeparate`, `PathInsideIsSound`).
- Chunks uploaded in any order, with repeats and failures, assemble to the file they were cut from
  (`ChunkRoundTrip`, `AssemblyHandsOverTheFile`).
- Any number of interrupted import attempts followed by one that finishes equals one uninterrupted
  run (`ResumedImportEqualsUninterrupted`), no record or event is accepted twice, and the counters
  add up.
- No enabled daily limit is ever passed (`QuotaIsNeverExceeded`), every admitted event is counted once
  and a day takes exactly as many as it has places (`DayTakesExactlyItsPlaces`), and admission of a
  batch equals admission one by one (`BatchEqualsSingles`).
- The SQL built for the two list queries means the filter it was built from
  (`BuildIssueListStatement`, `LogListMeans`), and the assignee filter finds exactly the last
  successful assignment (`FilterFindsLastAssignment`).
- Login states are consumed at most once, links never move, and every session belongs to an active
  member with the identity's address (`EverySessionIsLinked`).
- Building a canonical event is a fixpoint (`CanonicalIsFixpoint`), and the order in which a map of
  tags is visited is invisible exactly when no tags clash (`OrderIsInvisibleExactly`).

Where a promise does not hold of the code as it is, the exact condition is proved:

- A checksum sent to assembly finds the chunk uploaded under it exactly when it has no leading blank,
  since uploads trim it and assembly does not (`ChecksumFindsItsUpload`).
- A refused upload is not always without effect: an oversized one is written and then deleted, so it
  costs the chunk that was there (`RefusedUploadIsHarmlessExactly`, `OversizedUploadLosesChunk`).
- A checksum with an upper-case digit is accepted and can never be met (`MatchableExactly`), and a
  chunk that an oversized upload left counts as present but cannot be read
  (`PresentIsReadableExactly`).
- A log batch keeps the limits, whatever the usage, exactly when all its records were received on
  the day of the first one, the only day that is checked (`BatchIsSafeExactlyWithinOneDay`).
- The sum in the quota check is the true sum exactly when it fits 64 bits (`ExceededIsExact`).
- Text search is substring search exactly for texts without `%`, `_` and `\`
  (`TextSearchIsSubstringExactly`).
- A project ref survives every DSN exactly when it is slash-free, not empty, not a dot name and not
  padded (`RefReturnsExactly`); the parser trims, the printer does not.
- Resuming an import can change its result when a row that quota rejected is followed by its event
  under another key: exactly when two rows of the command form a trap (`ResumesExactly`), which
  needs a rejection and an event under two keys (`UsualImportsResume`).
- Credentials agree by the text of the key, not by the key: two spellings of one key are denied
  (`SameKeyAgreesByText`), so a request that repeats the printed DSN must write its key without
  dashes (`PrintedDsnAgreesExactly`).

## Model

| member | source | states |
|---|---|---|
| Identifiers.NormalizeUuidExactly | internal/domain/ids.go:372-382 | which texts are identifiers: 32 hex digits of either case once padding and dashes are gone; the value is those digits in lower case |
| Identifiers.UuidRoundTrip | internal/domain/ids.go:372-398 | normalising the dashed form, or the stored form, of an identifier gives the identifier |
| Identifiers.DashedUuidInjective | internal/domain/ids.go:384-398 | two stored identifiers, the zero value included, never print alike |
| Identifiers.DashedUuidShape | internal/domain/ids.go:384-398 | the printed form is 36 characters, dashes in four fixed places and hex digits everywhere else |
| ArtifactKeys.NewArtifactNameAccepts | internal/domain/artifact.go:69-103 | which names are accepted, said without the order of checks; a stored name is accepted again unchanged; the traversal check never decides |
| ArtifactKeys.ParseArtifactKindExactly | internal/domain/artifact.go:46-63 | which texts are read as which of the five kinds, whatever their padding and case; every kind is read as itself |
| ArtifactKeys.NewArtifactKeyOfValidParts | internal/domain/artifact.go:109-137 | parts that passed their own constructors always make a key, and a valid one |
| Paths.ResolveOfRender | internal/adapters/filesystem/vault.go:28-55 | a clean rooted path is the text of exactly one component list, and cleaning leaves it alone |
| Paths.JoinBelow | internal/adapters/filesystem/vault.go:269-283 | joining plain components below a clean path appends them and nothing else |
| Paths.NoClimbInJoin | internal/adapters/filesystem/vault.go:285-300 | joined plain components never contain a step upwards if only the last may end in a dot |
| VaultPaths.ResolvedRootIsClean | internal/adapters/filesystem/vault.go:28-55 | the root a vault keeps is the text of a clean component list |
| VaultPaths.ResolveRootExactly | internal/adapters/filesystem/vault.go:28-55 | which roots are accepted and what is kept: the absolute path given, cleaned |
| VaultPaths.KeyPathOf | internal/adapters/filesystem/vault.go:229-247 | the path of a valid key never fails and is root, organization, project, kind and name |
| VaultPaths.ScopePathOf | internal/adapters/filesystem/vault.go:249-283 | the directory of a valid scope never fails and is root, organization, project and kind |
| VaultPaths.LocationInjective | internal/adapters/filesystem/vault.go:229-247 | distinct keys have distinct files |
| VaultPaths.KeyPathsAreSeparate | internal/adapters/filesystem/vault.go:229-300 | key paths are total, strictly inside the root, injective, and never ancestors of one another |
| VaultPaths.PathInsideIsSound | internal/adapters/filesystem/vault.go:285-300 | whatever path the containment check lets through is the root or below it |
| VaultPaths.KeyPathNeverEscapes | internal/adapters/filesystem/vault.go:229-300 | even a key whose name was never checked cannot get a path outside the root |
| VaultPaths.TempNameIsNoArtifact | internal/adapters/filesystem/vault.go:18-26 | a temporary name is never an artifact name |
| VaultContents.ListingIsUnique | internal/adapters/filesystem/vault.go:222-226 | one set of contents has exactly one sorted listing, whatever order the directory is read in |
| Text.LessExactly | internal/adapters/filesystem/vault.go:222-226 | names are compared at the first place where they differ, a proper prefix first |
| VaultContents.SortByNameSorts | internal/adapters/filesystem/vault.go:222-226 | sorting by name orders strictly and keeps exactly the entries |
| ArtifactVault.AbandonedPut | internal/adapters/filesystem/vault.go:86-119 | a Put that stops after copying changes no key, whether or not its temporary file is removed |
| ArtifactVault.PublishedPut | internal/adapters/filesystem/vault.go:86-119 | the rename can happen and replaces exactly one entry |
| ArtifactVault.Vault.constructor | internal/adapters/filesystem/vault.go:28-55 | a new vault on an empty place holds nothing |
| ArtifactVault.Vault.PutArtifact | internal/adapters/filesystem/vault.go:61-119 | exactly when it succeeds; on success one entry is replaced, on any failure none |
| ArtifactVault.Vault.WriteFile | internal/adapters/filesystem/vault.go:78-119 | the part that touches the disk stores the bytes exactly when no call fails, and otherwise leaves every entry; no temporary name stays unless its removal fails |
| ArtifactVault.Vault.Publish | internal/adapters/filesystem/vault.go:93-119 | from the copied temporary file on, the rename publishes it or nothing changes, and the temporary name goes |
| ArtifactVault.Vault.GetArtifact | internal/adapters/filesystem/vault.go:121-143 | returns the bytes stored under the key; not found exactly when there are none |
| ArtifactVault.Vault.DeleteArtifact | internal/adapters/filesystem/vault.go:145-164 | removes exactly one entry; removing an absent one succeeds |
| ArtifactVault.Vault.ListArtifacts | internal/adapters/filesystem/vault.go:166-227 | exactly the stored keys of the scope with their sizes, sorted and each once, without files that vanish meanwhile; empty for a missing directory |
| ArtifactVault.Vault.CollectStored | internal/adapters/filesystem/vault.go:187-220 | the loop collects one entry per valid name in the directory |
| ArtifactVault.Vault.KeepEntry | internal/adapters/filesystem/vault.go:187-220 | which directory entries are kept, and as what |
| VaultInterleaving.EveryStepKeeps | internal/adapters/filesystem/vault.go:61-164 | every system call of every writer keeps the disk's shape, touches no file in use, and changes what keys read as only by rename and delete |
| VaultInterleaving.RunsAreExplained | internal/adapters/filesystem/vault.go:61-164 | at every point of every run, keys, writers and readers are what the list of actions says |
| VaultInterleaving.AtomicPublication | internal/adapters/filesystem/vault.go:61-164 | a key reads as the contents of the Put that renamed last with no later delete, or as absent |
| VaultInterleaving.PublishedIsOnePut | internal/adapters/filesystem/vault.go:61-119 | what is published is whole, from one Put, and never a mixture |
| VaultInterleaving.ReadersSeeOnePut | internal/adapters/filesystem/vault.go:121-143 | an open reader delivers a prefix of what the key held at opening, and all of it at end of file |
| VaultInterleaving.LeftoversAreNeverNames | internal/adapters/filesystem/vault.go:166-227 | after any run and any crash all other files below the root are temporary files that no listing shows |
| Identities.DecodeRecoversFields | internal/domain/sourcemap.go:158-179 | cutting the hashed text at the separators gives back the fields of a constructed identity in their order |
| Identities.SameHashedSameIdentity | internal/domain/debugfile.go:174-185 | within a family, equal hashed text means equal identities |
| Identities.ArtifactNameIsValid | internal/domain/minidump.go:85-94 | the unchecked name built from digest and suffix would pass the name constructor unchanged |
| Identities.ArtifactNameParts | internal/domain/debugfile.go:174-185 | a name is the 64 digits of the digest and the ending of its own family |
| Identities.NameTextsExactly | internal/domain/sourcemap.go:35-79 | which texts are release and distribution names, and what is kept |
| Identities.NewFileNameExactly | internal/domain/sourcemap.go:89-120 | which texts are file names: bounded, visible, relative, without backslashes and double dots |
| Identities.NewDebugIdentifierExactly | internal/domain/debugfile.go:72-95 | which texts are debug identifiers: 32 to 40 hex digits of either case; the value is those in lower case |
| Identities.ArtifactNamesAreDistinct | internal/domain/sourcemap.go:158-169 | without a digest collision, names are equal exactly for equal identities; families never overlap, whatever the digest |
| Identities.ArtifactNamesAreNotChunks | internal/adapters/http/artifact_upload.go:631-656 | no identity's name is a chunk name |
| ChunkStore.RequireSha1ChecksumAccepts | internal/adapters/http/artifact_upload.go:1006-1018 | a checksum is accepted exactly when its trimmed text is 40 hex digits of either case |
| ChunkStore.PlainChecksumKey | internal/adapters/http/artifact_upload.go:631-656 | a plain checksum always names a valid key |
| ChunkStore.ChunkKeyFields | internal/adapters/http/artifact_upload.go:631-656 | a chunk key is the organization and project of the access, the chunk kind and the prefixed checksum without trailing blanks |
| ChunkStore.OtherKeysAreUntouched | internal/adapters/http/artifact_upload.go:587-656 | uploads under one access change nothing of another organization or project and no artifact of another kind |
| ChunkStore.AccessesAreSeparate | internal/adapters/http/artifact_upload.go:587-738 | what one access uploads changes neither what is missing nor what is assembled for another |
| ChunkStore.ChecksumFindsItsUpload | internal/adapters/http/artifact_upload.go:587-656 | assembly looks where the upload wrote exactly when the checksum has no leading blank |
| ChunkStore.LastUploadDecides | internal/adapters/http/artifact_upload.go:587-629 | from any contents on, a chunk is what the last effective request of its checksum left, or what was there; nothing touches other chunks |
| ChunkStore.RefusedUploadIsHarmlessExactly | internal/adapters/http/artifact_upload.go:587-629 | when a refused upload leaves any vault as it was: exactly if it never reached it, or was undone where nothing had been, or was not undone and found its own bytes |
| ChunkStore.OversizedUploadLosesChunk | internal/adapters/http/artifact_upload.go:616-626 | an oversized upload costs any chunk of its name, or leaves one that is too large to read when its delete fails; other chunks stay |
| ChunkStore.RequestsUploadPieces | internal/adapters/http/artifact_upload.go:587-629 | what counts is what the last written request for each digest carried |
| ChunkStore.HonestRequests | internal/adapters/http/artifact_upload.go:587-629 | requests that carry only the piece under its digest qualify in any order and with any repeats |
| ChunkStore.ChunkRoundTrip | internal/adapters/http/artifact_upload.go:587-738 | whatever the vault held, if each piece is the last thing written under its digest, nothing is missing and the chunks join to the file |
| ChunkStore.MissingAreUnuploaded | internal/adapters/http/artifact_upload.go:658-686 | for all usable checksums, the missing ones are exactly those that neither the uploads nor the vault before them left |
| ChunkStore.PresentIsReadableExactly | internal/adapters/http/artifact_upload.go:658-738 | when nothing is missing, everything can be read exactly if no chunk of the request exceeds the limit |
| ChunkStore.MatchableExactly | internal/adapters/http/artifact_upload.go:1006-1028 | an accepted checksum can be met by some body exactly if it has no upper-case digit |
| ChunkUpload.StoreArtifactChunk | internal/adapters/http/artifact_upload.go:587-629 | the effect of one request on the vault and on no key out of its reach, exactly when it succeeds or reports an oversized chunk, and exactly when its refusal is without effect |
| ChunkUpload.WriteChunk | internal/adapters/http/artifact_upload.go:611-629 | the Put of at most one byte over the limit and its removal when the limit is passed |
| ChunkUpload.MissingArtifactChunks | internal/adapters/http/artifact_upload.go:658-686 | reports exactly the absent chunks, in request order |
| ChunkUpload.ReadArtifactChunks | internal/adapters/http/artifact_upload.go:688-708 | the buffer holds the stored chunks whole and in order |
| ChunkUpload.ReadSingleArtifactChunk | internal/adapters/http/artifact_upload.go:710-738 | a chunk is returned exactly when it is stored and within the limit |
| ChunkUpload.AssembleDebugFile | internal/adapters/http/artifact_upload.go:893-966 | what reaches the debug file store is the joined chunks, only if they hash to the checksum; created exactly when handed over and stored |
| ChunkUpload.DebugFileIdentityFields | internal/adapters/http/artifact_upload.go:926-952 | the identity assembly builds has the identifier in lower case, the kind the bytes show and the trimmed name |
| ChunkUpload.AssemblyHandsOverTheFile | internal/adapters/http/artifact_upload.go:587-966 | whatever the vault held before the uploads of the pieces, every check of assembly passes and the store gets the very file |
| ImportLedger.StatusesSettle | internal/adapters/postgres/importer.go:117-254 | applied and duplicate are final, nothing committed is pending, no key or accepted event is lost, only keys among the rows move |
| ImportLedger.FailedIsLeftByRetryOnly | internal/adapters/postgres/importer.go:222-254 | a failed row changes only when its key comes up again |
| ImportLedger.AtMostOneAcceptPerKey | internal/adapters/postgres/importer.go:117-173 | over any runs the number of accepting ingests of a key is one if it became applied, and zero otherwise |
| ImportLedger.AtMostOneAcceptPerEvent | internal/adapters/postgres/importer.go:117-173 | an event is accepted exactly once, through whichever key brings it |
| ImportResumption.ResumesExactly | internal/adapters/postgres/importer.go:44-173 | resuming at any row from any state equals one uninterrupted run exactly when no two rows of the command form a trap |
| ImportResumption.RerunAfterPrefix | internal/adapters/postgres/importer.go:44-75 | without a trap, stopping at any row and running again ends where one run would |
| ImportResumption.TrapBreaks | internal/adapters/postgres/importer.go:117-173 | every trap makes some stop and rerun differ |
| ImportResumption.ResumedImportEqualsUninterrupted | internal/adapters/postgres/importer.go:44-173 | without a trap, any series of stopped attempts followed by a full one equals one uninterrupted run |
| ImportResumption.UsualImportsResume | internal/adapters/postgres/importer.go:44-173 | there is no trap without quota rejections, nor when no event comes under two keys |
| ImportResumption.RejectionBreaksResumption | internal/adapters/postgres/importer.go:350-368 | the smallest trap: a rejected row, and its event again under another key |
| ImportLedger.AppliedRowsAreNewEvents | internal/adapters/postgres/importer.go:387-412 | a run accepts exactly as many events as it counts applied rows |
| Importer.FindIdentity | internal/adapters/postgres/importer.go:175-205 | finds a row of the key, and finds none only if there is none |
| Importer.StatusesAfterUpdate | internal/adapters/postgres/importer.go:308-340 | updating one row changes one entry of the table's meaning |
| Importer.RetriedRow | internal/adapters/postgres/importer.go:207-254 | resetting and updating a failed row keeps rows unique, leaves none pending and sets that key's status |
| Importer.InsertedRow | internal/adapters/postgres/importer.go:256-340 | inserting and updating a new row does the same |
| Importer.CommittedStep | internal/adapters/postgres/importer.go:117-173 | a committed row moves the tables as one step of the ledger |
| Importer.CountersCoverEveryRow | internal/adapters/postgres/importer.go:387-412 | the four counters add up to the rows, the fall-through is never taken, and a failed row decides the run's status |
| Importer.ImportStore.ApplyImportRecord | internal/adapters/postgres/importer.go:117-173 | one row, committed as one ledger step or not at all, recorded with its run, event and reason; rows of other keys stay |
| Importer.ImportStore.ApplyImport | internal/adapters/postgres/importer.go:44-75 | a run finishes when no statement fails; a finished run has counted every row, recorded its status and applied all rows; a stopped one applied a prefix and is marked failed |
| Importer.ImportStore.ApplyRows | internal/adapters/postgres/importer.go:54-68 | the loop commits a prefix of the rows with their counters, and all of them when no statement fails |
| QuotaRules.ExceededIsExact | internal/adapters/postgres/quota.go:200-206 | the check compares the true sum exactly when the sum fits 64 bits |
| QuotaRules.DecisionInNumbers | internal/adapters/postgres/quota.go:172-206 | which decision is made, in numbers: the organization first, then the project, and neither when its policy is off |
| QuotaRules.BatchEqualsSingles | internal/adapters/postgres/quota.go:172-206 | a batch is allowed exactly when its single checks are; a refused batch has a first refused record, with the project's reason when that was the batch's |
| QuotaRules.FirstRefusalIsHeadroom | internal/adapters/postgres/quota.go:172-206 | one by one, as many records get in as the tighter limit has room for |
| QuotaRules.OneRecordDecision | internal/adapters/postgres/quota.go:172-198 | the event and log checks agree on one record, and an empty batch counts as one |
| UsageAccounting.HourIsInItsDay | internal/adapters/postgres/quota.go:113-170 | an hour bucket falls in a day's window exactly when the record's day is that day |
| UsageAccounting.HourAndDayOf | internal/adapters/postgres/logs.go:121-157 | hours and days start on whole ones, at most that long before the instant |
| UsageAccounting.UpsertAdds | internal/adapters/postgres/logs.go:121-157 | an upsert adds its increment to every sum that selects it and to no other |
| UsageAccounting.OneDayBatchIsSafe | internal/adapters/postgres/quota.go:113-198 | a checked batch of one day keeps every limit |
| UsageAccounting.StrayRecordBreaksLimit | internal/adapters/postgres/quota.go:35-53 | a batch with a record of another day can pass a limit |
| UsageAccounting.BatchIsSafeExactlyWithinOneDay | internal/adapters/postgres/quota.go:35-53 | a batch is safe under all usages and policies exactly when it lies within one day |
| UsageAccounting.EventIsSafe | internal/adapters/postgres/store.go:286-325 | an ingested event keeps every limit |
| UsageAccounting.QuotaIsNeverExceeded | internal/adapters/postgres/quota.go:113-206 | over any serial run of batches and events no enabled limit is passed on any day |
| UsageAccounting.LogCounterCountsRows | internal/adapters/postgres/logs.go:43-157 | in every project and hour the log counter grows by exactly the log rows stored |
| UsageCounting.UpsertIsOneRow | internal/adapters/postgres/logs.go:121-157 | an upsert inserts the row of its project and hour or adds to its four counters, and leaves every other row |
| UsageCounting.OneRowAlways | internal/adapters/postgres/logs.go:121-157 | over any run there is one bucket at most for a project and hour |
| UsageCounting.AdmittedEventIsCounted | internal/adapters/postgres/store.go:286-325 | a new event is admitted exactly when there is room for one, and then counted once in its scope, day and hour and nowhere else; a known or refused one changes nothing |
| UsageCounting.DayTakesExactlyItsPlaces | internal/adapters/postgres/quota.go:16-33 | of any number of new events exactly as many get in as the day has places |
| UsageCounting.AllowedBatchIsCounted | internal/adapters/postgres/logs.go:43-157 | an allowed log batch grows the event and log counters of its scope by the records received on each day and in each hour, and nothing else |
| LogIngest.NormalizeIngestCommand | internal/app/logs/logs.go:224-243 | accepts exactly non-empty batches of one scope with both parts |
| UsageAccounting.AllowedExactlyWithRoom | internal/adapters/postgres/quota.go:35-53 | a batch is allowed exactly when the whole of it still fits under every stored enabled limit on the day of its first record, and a refusal names the organization if it is full |
| LogIngest.Transaction.AppendLogRecord | internal/adapters/postgres/logs.go:57-157 | one row and one bucket increment |
| LogIngest.Transaction.AppendLogRecords | internal/adapters/postgres/logs.go:43-55 | all records are appended in order, or an error is returned |
| LogIngest.LogStore.Ingest | internal/adapters/postgres/logs.go:18-41 | a batch is stored as a whole, refused as a whole or rolled back |
| Ilike.PlainContains | internal/adapters/postgres/issues_read.go:78-80 | for a text without wildcards the pattern is case-insensitive substring search |
| Ilike.TextSearchIsSubstringExactly | internal/adapters/postgres/issues_read.go:78-80 | text search is substring search on all titles exactly for texts without wildcards |
| SqlFilters.CompilesOneMore | internal/adapters/postgres/issues_read.go:63-66 | adding a clause with its arguments adds one condition |
| SqlFilters.StatementIsNumbered | internal/adapters/postgres/issues_read.go:54-122 | placeholders read left to right are the arguments in order, each once, the limit last |
| SqlFilters.StatementMeans | internal/adapters/postgres/issues_read.go:54-122 | the conjunction under its arguments accepts exactly the rows that satisfy the conditions |
| IssueSearch.ConditionsMean | internal/adapters/postgres/issues_read.go:68-94 | the conditions together say what the filter asks for |
| IssueSearch.StatementBuilder.AddArg | internal/adapters/postgres/issues_read.go:63-66 | the new placeholder is the number of arguments so far |
| IssueSearch.StatementBuilder.AssigneeClause | internal/adapters/postgres/issues_read.go:124-137 | the clause of the target's condition, with its argument if it has one |
| IssueSearch.StatementBuilder.AddScope | internal/adapters/postgres/issues_read.go:54-68 | the first three clauses compile the scope and status |
| IssueSearch.StatementBuilder.AddDimensions | internal/adapters/postgres/issues_read.go:69-80 | compiles the set dimension and text filters and no others |
| IssueSearch.StatementBuilder.AddTagAndAssignee | internal/adapters/postgres/issues_read.go:81-88 | compiles the set tag and assignee filters and no others |
| IssueSearch.StatementBuilder.AddSeen | internal/adapters/postgres/issues_read.go:89-94 | compiles the set time bounds and no others |
| IssueSearch.StatementBuilder.AddFilters | internal/adapters/postgres/issues_read.go:54-97 | together the steps compile all conditions of the query |
| IssueSearch.BuildIssueListStatement | internal/adapters/postgres/issues_read.go:54-122 | the built statement accepts a row exactly when it is in scope and satisfies every set filter |
| LogSearch.TextFilterCompiles | internal/adapters/postgres/logs.go:270-285 | a text filter adds its condition, or nothing when blank |
| LogSearch.JsonFilterCompiles | internal/adapters/postgres/logs.go:287-305 | an attribute filter adds its condition, or nothing when either half is blank |
| LogSearch.StatementCompiles | internal/adapters/postgres/logs.go:229-268 | the threaded appenders build the statement of the query's conditions |
| LogSearch.LogListMeans | internal/adapters/postgres/logs.go:229-309 | the log statement accepts a row exactly when it is in scope and satisfies every filter that is not blank |
| Assignment.IssueStore.RequireEligibility | internal/adapters/postgres/issues_assignment.go:62-180 | kind by kind: an operator passes exactly as an active member of that project, a team exactly when it is in it, none always, another kind never |
| Assignment.FilterMatchesOwnTarget | internal/adapters/postgres/issues_assignment.go:182-230 | the columns an assignment writes are matched by the filter for its own target and by no other |
| Assignment.IssueStore.AssignIssue | internal/adapters/postgres/issues_assignment.go:14-60 | commits exactly when nothing failed and the target is eligible, an operator only as an active member; an error changes nothing |
| Assignment.IssueStore.Assign | internal/app/issues/query.go:294-320 | a command is accepted exactly when it is well formed and commits |
| Assignment.ColumnsFollowLastTarget | internal/adapters/postgres/issues_assignment.go:14-222 | from an unassigned issue on, the columns are those of the last successful target |
| Assignment.AtMostOneAssignee | internal/adapters/postgres/issues_assignment.go:182-222 | at most one assignee column is ever set |
| Assignment.AssigneesWereEligible | internal/adapters/postgres/issues_assignment.go:62-222 | every assignee after a run was put there by a command whose directory had the operator active in that project, or the team in it |
| Assignment.OtherCommandsKeepTarget | internal/adapters/postgres/issues_assignment.go:14-60 | failed commands and commands on other issues change nothing |
| Assignment.FilterFindsLastAssignment | internal/adapters/postgres/issues_read.go:124-137 | the assignee filter matches exactly the target of the last successful assignment |
| Assignment.SearchNarrowsToLastAssignment | internal/adapters/postgres/issues_read.go:54-137 | in a whole query the filter narrows the answer by that and nothing else |
| Assignment.TargetTextRoundTrip | internal/app/issues/query.go:476-515 | a target survives printing and parsing exactly when it is valid |
| Oidc.OidcStore.StoreLoginState | internal/adapters/postgres/oauth.go:157-188 | stores an unused state hash and refuses a used one |
| Oidc.OidcStore.ConsumeLoginState | internal/adapters/postgres/oauth.go:190-217 | marks one unconsumed, unexpired state of this provider and returns its verifier and path |
| Oidc.OidcStore.UpsertExternalIdentity | internal/adapters/postgres/oauth.go:336-368 | inserts or refreshes a link exactly when both uniqueness constraints allow it |
| Oidc.OidcStore.LoginWithIdentity | internal/adapters/postgres/oauth.go:219-283 | links and creates a session together or not at all, and exactly when; the operator is the oldest active member with the address, and which fields are written |
| Oidc.ActiveOperatorExactly | internal/adapters/postgres/oauth.go:285-305 | an address resolves to the oldest operator that is active, in a project and has it in some mix of cases, and to none exactly when nobody does |
| Oidc.ConsumedAtMostOnce | internal/adapters/postgres/oauth.go:190-217 | no login state is consumed twice in a run |
| Oidc.ConsumptionHasItsStore | internal/adapters/postgres/oauth.go:157-217 | a consumption is for the state's own provider, strictly before expiry, and yields what that one store put in |
| Oidc.StoredAtMostOnce | internal/adapters/postgres/oauth.go:157-188 | a state hash is stored by at most one step |
| Oidc.LinkNeverChanges | internal/adapters/postgres/oauth.go:307-368 | once linked, an identity keeps its operator |
| Oidc.OneSubjectAlways | internal/adapters/postgres/migrations/000032_m4_oauth_oidc.sql:35-44 | within a provider no operator is linked to two subjects |
| Oidc.SessionBelongsToLinkedOperator | internal/adapters/postgres/oauth.go:256-283 | a login's session is new and belongs to the operator its identity is linked to, then and ever after |
| Oidc.SessionIsOfTheAddressee | internal/adapters/postgres/oauth.go:256-305 | a login session is for the operator its address resolves to, and lasts thirty days |
| Oidc.EverySessionIsLinked | internal/adapters/postgres/oauth.go:256-305 | every session came from a login of an identity linked to its operator, who was an active member with that address |
| Oidc.SameOperatorIffSameSubject | internal/adapters/postgres/oauth.go:256-368 | two logins of one provider reach the same operator exactly for the same subject |
| Dsn.RefComesBackTrimmed | internal/adapters/http/sentry.go:516-533 | for every public path a plain ref comes back trimmed |
| Dsn.RefReturnsExactly | internal/adapters/postgres/bootstrap.go:670-680 | a ref comes back from every public path exactly when it is slash-free, not empty, not a dot name and not padded |
| Dsn.KeyComesBack | internal/adapters/postgres/bootstrap.go:670-680 | a valid key, dashed or not, is read back as the same key |
| Dsn.DsnParts | internal/adapters/postgres/bootstrap.go:670-680 | the DSN keeps the public path, with the ref below it, and carries the key without dashes |
| SentryAuth.AgreeSentryAuthSources | internal/adapters/http/sentry.go:535-558 | succeeds exactly when there is a source, all are complete and all agree |
| SentryAuth.AgreementIgnoresOrderAndRepetition | internal/adapters/http/sentry.go:535-558 | the verdict and the agreed ref and key depend only on which credential pairs occur |
| SentryAuth.PermutedSourcesAgreeAlike | internal/adapters/http/sentry.go:535-558 | rearranging the sources changes nothing |
| SentryAuth.BadEnvelopeIsDenied | internal/adapters/http/sentry.go:499-514 | a DSN that does not parse denies the request, whatever else it carries |
| SentryAuth.EnvelopeSources | internal/adapters/http/sentry.go:499-533 | an envelope without a DSN adds no source, and one with a DSN adds its ref and key |
| SentryAuth.SameKeyAgreesByText | internal/adapters/http/sentry.go:535-558 | two carriers of one project and one key agree exactly when they spell the key alike |
| SentryAuth.PrintedDsnAgreesExactly | internal/adapters/http/sentry.go:499-558 | a request that repeats its key in the printed DSN is admitted exactly when it writes the key without dashes |
| Tags.NormalizeTags | internal/domain/event.go:330-344 | the loop computes the merge of the trimmed entries in visiting order |
| Tags.NamesIgnoreOrder | internal/domain/event.go:330-344 | in any order the names are the trimmed keys whose key and value are not blank |
| Tags.ValueIsFromLastKey | internal/domain/event.go:330-344 | the value under a name is that of the last visited key that trims to it and is not blank |
| Tags.OrderIsInvisibleExactly | internal/domain/event.go:330-344 | all orders give one map exactly when no keys that trim alike carry different values |
| Tags.NormalTagsStay | internal/domain/event.go:330-344 | normal tags stay as they are, in any order |
| Events.NormalizeParts | internal/domain/event.go:311-324 | the loop keeps the trimmed parts that are not blank |
| Events.GroupingPartsSettle | internal/domain/event.go:132-135 | grouping parts are never empty or blank and stay as they are |
| Events.DefaultTransactionExactly | internal/domain/performance_transaction.go:163-214 | a default transaction exists exactly for a title of at most 512 bytes without control characters, and carries it |
| Events.TransactionDataExactly | internal/domain/performance_transaction.go:163-286 | from which texts and duration transaction data is made, and what it holds |
| Events.NewEventTitleExactly | internal/domain/event.go:75-82 | a title is any text that is not all blanks, without the blanks around it |
| Events.TransactionSettles | internal/domain/event.go:282-309 | exactly when transaction data suits the kind; it is present exactly for transactions and kept when given again |
| Events.BuiltExactly | internal/domain/event.go:94-164 | an event is built exactly from parameters with every required part and suitable transaction data |
| Events.BuiltEventIsNormal | internal/domain/event.go:94-164 | a built event has grouping parts, nothing blank or padded, and transaction data exactly when it is a transaction |
| Events.BuiltEventCarriesItsParameters | internal/domain/event.go:94-164 | a built event carries its own parameters: head and copies as they are, the trimmed non-blank parts of each list in order, trimmed dimensions, trimmed tags and the given or default transaction |
| Events.RefusalNamesItsCause | internal/domain/event.go:94-127 | a refusal names a part that is missing or unknown |
| Events.CanonicalIsFixpoint | internal/domain/event.go:94-164 | an event's own values build that event again, in any tag order |

## Left out

- Text is Unicode scalar values, so input that is not valid UTF-8, and the checks that refuse it, do not occur.
- Lower-casing covers the letters whose lower case is ASCII; any other letter matches only itself, also in `ilike` and in e-mail addresses.
- Loss of writes after a power failure, links and permissions on the file system; a crash ends processes between system calls.
- A directory tree that something other than the vault writes below the root.
- A directory creation that fails half-way: it either happens whole or not at all.
- The sort of a listing is insertion sort; only its result matters here.
- SQL text, joins, ordering and the parsing of UUID text by the database; a clause is its meaning on a row, and identifiers compare as text.
- Interleaved database transactions: they run one after another.
- ImportResumption.ResumesExactly: whether the quota gate turns a row away is taken to be the same in every attempt of the command; a gate that changes its mind between attempts gives other rows.
- Column checks on login states other than uniqueness and consumption time; a statement that breaks one fails like any other fault.
- Issue indexing, grouping, notifications and statistics of event ingest, beyond the journal, the quota gate and the usage bucket.
- HTTP, multipart, gzip, JSON and zip decoding, and the assembly of source map bundles.
- Copies of attachments, frames and modules inside an event: they are one value that is passed through.
- The validation of trace contexts and spans of a transaction.
- URL text: a DSN is the URL it parses to, for URLs with a host.
- Retention, which deletes rows and usage buckets later.
- Rate limits, notification senders, monitors, user reports and the generated web pages.
