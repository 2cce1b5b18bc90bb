# QiVitals verification

A Dafny model of QiVitals with proofs about it. QiVitals keeps a registry of sensors: clients register
them, report data to them, patch their description with JSON Patch, query them by label, text and
health, and delete them. The model covers

- the patch pipeline: path allowlist, RFC 6902 application, the nested document and back, and the write
  of only the touched columns (`Patching`, `ColumnPatches`, `FieldPatches`, `JsonPatch`);
- concurrent patch requests on the in-memory store, down to single unlocked column reads through the
  live record and single column writes under the lock (`PatchProtocol`), what they are answered
  (`PatchAnswers`), and what clients that read live records can see (`LiveReads`);
- the in-memory store as a class over records changed in place, its transitions as functions and what
  they keep over whole runs (`MemoryStorage`, `StoreModel`, `Queries`, `Filters`);
- the Postgres store as transitions of one table, and its simulation with the in-memory store, queries
  included (`PostgresModel`, `PostgresStorage`, `Pages`, `QueryAgreement`, `Simulation`);
- saving and restoring (`Snapshots`), health derivation (`Health`, `Evaluator`, `Service`);
- the rule edits of the command line, its rule grammar and its day and week durations (`RuleEdits`,
  `RuleGrammar`, `ExtendedDuration`), and the duration fields of the sensor page (`Durations`);
- the compile and template caches and the mailed single-use links as concurrent protocols
  (`CacheProtocol`, `MagicLinkStore`, `MagicLinks`).

`dafny verify dfyconfig.toml` checks everything.

## Assumptions

- Fresh versions and fresh link ids are never repeated; a version that a client makes up is not issued
  later. They are parameters of the operations, as are the clock readings.
- The clock does not go backwards. In `MagicLinks` it advances between any two steps.
- A critical section under a mutex, or a single SQL statement, is one atomic step; `PatchProtocol` and
  `CacheProtocol` are finer than that and prove what the locking gives.
- Reading one field of a live record without a lock is one step. For strings, slices and maps this is an
  assumption: the Go memory model promises it for single words only.
- Where health is derived, the rules of a list are not nil. Everywhere else a nil rule is modelled.
- Sensor ids that reach storage are not empty.
- CEL and Go templates are deterministic functions that may fail; signed tokens cannot be forged.
- The collation of the database is a total order of strings in which only equal strings tie; which one
  it is, is a parameter.
- Whether Postgres notices that a text is too long before or after it looks for the row is left open.
- `time.ParseDuration` accepts a whole number of hours exactly when it fits 64-bit nanoseconds.

## What the proofs found

- The in-memory store does not look for the new name when a patch renames a sensor, so two sensors can
  end up with one name (`StoreModel.StepKeepsInvIff`, `StoreModel.RenameCanCollide`); Postgres refuses the
  same request with an unmapped unique violation.
- The stores part on that, on text beyond VARCHAR(255), on null labels, on U+0000 in anything that is
  sent, and on queries that they select or order differently. `Simulation.StepAgreesIff` and
  `Simulation.RunsAgreeIff` say exactly which requests these are, among registrations, patches, reports by
  id or name, deletes and queries. A rename to 256 letters is one (`Simulation.LongRenameParts`); excess
  spaces are cut off silently.
- Of the five orders that the sensor page offers, two mean the same to both stores: none, and by name
  if the database collates by code points. By namespace, as by id, the in-memory store sorts by
  registration time; last_updated and state it answers in that order too, and Postgres refuses them
  (`QueryAgreement.OrderNeverPartsIff`). Filters part the stores by LIKE wildcards in the search text and
  by label values wanted empty (`QueryAgreement.FilterNeverPartsIff`).
- A patch may replace the labels by null. The in-memory store turns that into an empty map, Postgres
  stores the null, and a later request can tell the difference (`Simulation.NullLabelsRunParts`).
- Answers are assembled from live records without a lock and can pair an old field with a new version
  (`LiveReads.TornReadCanHappen`), and a record half written shows new fields under the old version
  (`LiveReads.HalfWrittenReadCanHappen`). A client that sees one version twice, with the record settled, has
  seen one info (`LiveReads.VersionTellsChangeIff`).
- The states of a query are filtered after the page was cut, so sensors can be missed exactly when there
  are more matches than the page size (`Queries.StateQueryIsCompleteIff`, `Queries.StateQueryCanMiss`).
- A condition takes the target of the first rule of its name. With two rules of one name a contribution
  can be lost (`Health.DuplicateNamesMislead`); `Health.ReportedStateIsMaximumIff` says for which lists.
- Removing "all" rules also drops the rules that the same command adds, since the additions are emitted
  first (`RuleEdits.AllClearsAdditionsToo`).
- A day or week count beyond 106751 or 15250 is never exact, and one beyond 64 bits is not refused: it
  means minus one day or minus one week (`ExtendedDuration.HugeCountIsMinusOne`).
- Restoring a snapshot depends on the order of a map walk exactly when names are not unique
  (`Snapshots.OrderIrrelevantIffUnique`), which the first finding makes possible.
- `Validate` of the link store ignores its email argument, although its caller passes one as if it were
  checked; that the session is for the right email rests on the signed token.
- The `used` mark of a stored link is never seen set: the entry is removed in the same critical section.

## Model

| member | source | states |
|---|---|---|
| PatchProtocol.RunsAreSerializable | internal/server/qivitals_patching.go:61-118 | no lost updates: after any interleaving of patch requests (reading the live record field by field without a lock, computing, locking, writing column by column), registrations, reports and deletes, the contents equal the successful requests served one after another in the order they took effect |
| PatchProtocol.OneCommitPerVersion | internal/storage/memory_storage.go:79-81 | of all patch requests that name the same version at most one ever commits |
| PatchAnswers.AnswersAreTrue | internal/server/qivitals_patching.go:107-118 | over every run a patch request is answered with success exactly when the history holds it, which is then once and with its id, version and operations; a request that is refused or still under way has no effect |
| PatchAnswers.AnswersTellWhy | internal/storage/memory_storage.go:74-81 | a request that has computed its update is told "not found" exactly when the sensor is gone and "version mismatch" exactly when the stored version is not the one named; before that it is rejected exactly for what its view and operations say; a writer succeeds |
| PatchAnswers.AcquireIsGranted | internal/storage/memory_storage.go:74-83 | a request gets to write exactly when its sensor is there under the version it names |
| PatchAnswers.RequestsGoOn | internal/server/qivitals_patching.go:61-118 | a request without an answer can take its next step, whatever it is, unless it waits for the lock, and then the holder of the lock can take one |
| PatchAnswers.CallsAreServed | internal/storage/memory_storage.go:28-67 | with the lock free a registration, report or delete takes effect exactly when it would succeed on the contents alone |
| PatchAnswers.BeginIsGranted | internal/server/qivitals_patching.go:54-67 | a patch request is taken up exactly when it names a sensor that is there and has operations |
| PatchProtocol.AcquireFindsWhatWasRead | internal/storage/memory_storage.go:74-81 | a request that passes the version check found the record it had been reading from, and computed its update from exactly the info that record now holds |
| PatchProtocol.ReleaseCommits | internal/storage/memory_storage.go:83-112 | releasing the lock takes the contents from before the patch to the atomic PatchSensor of them, although the columns were written one at a time |
| PatchProtocol.WriteKeepsInv | internal/storage/memory_storage.go:83-108 | writing one more touched column keeps the invariant: nothing of the half-written record counts as contents, and no other request is disturbed |
| PatchProtocol.ReadKeepsInv | internal/storage/memory_storage.go:136-146 | reading one more column through the live pointer keeps: as long as the named version is current, all columns read so far are those of the record |
| PatchProtocol.StepKeepsInv | internal/server/qivitals_patching.go:61-118 | every step of every request keeps the invariant behind serializability |
| PatchProtocol.WriterHasWritten | internal/server/qivitals_patching.go:107-111 | once all touched columns are written the record holds the whole patched document over what was found |
| LiveReads.BracketedReadIsOfOneMoment | internal/server/qivitals_svc.go:199-224 | fields read one by one from a live record belong to one committed info when the record has the same version before and after and is not being written afterwards |
| LiveReads.VersionTellsChangeIff | internal/server/qivitals_svc.go:199-224 | over any run, for a record that is not being written at the end: its info was the same at every moment exactly when it has the same version at both ends |
| LiveReads.HalfWrittenReadCanHappen | internal/storage/memory_storage.go:83-112 | that a record is not being written is needed: a reachable record, half written, shows the new name under the old version |
| LiveReads.TornReadCanHappen | internal/server/qivitals_svc.go:199-224 | a run in which a name read early and the version read late form a pair that the record carries after no prefix of the run |
| LiveReads.RunRespects | internal/storage/memory_storage.go:70-113 | over any run a record keeps its info, or is being written, or carries a version unknown before |
| Patching.SparseWriteIsFullWrite | internal/server/qivitals_patching.go:107-111 | for every info and every operation list that is accepted and applies, writing only the touched columns, in any order, equals writing the whole patched document |
| Patching.AcceptedPathHasColumn | internal/server/qivitals_patching.go:34-44 | every path the allowlist accepts has a storage column and addresses the document at or below that column |
| Patching.UntouchedColumnsSame | internal/server/qivitals_patching.go:70-79 | a patch leaves every column that none of its operations touches exactly as it was, through the nested document and back |
| Patching.PatchedColumns | internal/server/qivitals_patching.go:70-79 | the touched columns are real columns, non-empty for a non-empty request, and all others keep their value |
| Patching.PatchKeepsId | internal/server/qivitals_patching.go:202-218 | no accepted patch can change the id inside the document, so restoring id and registration time on the way back discards nothing |
| Patching.MoveAndCopyNeverApply | internal/server/qivitals_patching.go:135-161 | a request with a move or copy operation is always refused, never later than when it is applied, because from is never filled in |
| Patching.InfoRoundTrip | internal/server/qivitals_patching.go:183-218 | turning an info into its JSON document and back loses only the version and the time of the last change, which a patch never writes |
| FieldPatches.RemovedFieldIsEmpty | internal/server/qivitals_patching.go:202-218 | removing any of the seven fields succeeds and leaves exactly that field empty, zero or nil and all others as they were |
| FieldPatches.TextFieldTakes | internal/server/qivitals_patching.go:163-218 | name, namespace and description take text, and null as empty text; any other value is refused |
| FieldPatches.PeriodFieldTakes | internal/server/qivitals_patching.go:163-218 | the periods take whole numbers of 64 bits, and null as zero; any other value is refused |
| FieldPatches.LabelsFieldTakes | internal/server/qivitals_patching.go:163-218 | labels take an object of texts, a null in it as empty text, and null as nil; any other value is refused |
| FieldPatches.RulesFieldTakes | internal/server/qivitals_patching.go:163-218 | rules take a list of rules with text members, absent and null ones empty, a null rule as nil, and null as the empty list; any other value is refused |
| FieldPatches.PathAcceptedIff | internal/server/qivitals_patching.go:24-44 | exactly the seven paths and everything below labels and rules are accepted |
| FieldPatches.PatchErrorIff | internal/server/qivitals_patching.go:69-104 | why a request is refused, exactly: first for a path, then for a value that is no JSON, then for operations that do not apply, then for a document of the wrong shape |
| FieldPatches.TestFieldIff | internal/server/qivitals_patching.go:82-104 | a test of a field passes exactly for the value the document has there and changes nothing; otherwise the request does not apply |
| Patching.RuleRoundTrip | internal/server/qivitals_patching.go:183-218 | a rule survives encoding with empty members dropped and decoding; a nil rule stays nil |
| Patching.LabelsRoundTrip | internal/server/qivitals_patching.go:183-218 | labels survive the document, a nil map staying apart from an empty one |
| Patching.PatchableRoot | internal/server/qivitals_patching.go:221-245 | each key of the allowlist spells the location of a column |
| Patching.RequestOpIsEdit | internal/server/qivitals_patching.go:135-161 | an accepted operation that applies is an add, remove, replace or test at or below its column |
| Patching.OpsOutside | internal/server/qivitals_patching.go:95-98 | applying accepted operations keeps both sections objects and every two-token place outside the touched columns |
| Patching.EditOutside | internal/server/qivitals_patching.go:95-98 | one edit at or below a column changes nothing outside that column |
| Patching.PatchReadsUnversioned | internal/server/qivitals_patching.go:183-218 | the pipeline result depends on neither the version nor the time of the last change |
| Patching.TouchedAreColumns | internal/server/qivitals_patching.go:70-79 | every operation of an accepted request touches one of the seven columns |
| ColumnPatches.ReplacesSetColumns | internal/server/qivitals_patching.go:50-118 | a request that replaces whole fields, in any order and with repetitions, sets exactly those columns to exactly those values |
| ColumnPatches.ReplaceIsSetColumn | internal/server/qivitals_patching.go:183-200 | replacing a field of the document of an info gives the document of the info with that one column set |
| ColumnPatches.ColumnPathIsPatchable | internal/server/qivitals_patching.go:24-32 | each of the seven columns has an accepted path, and that path is its location in the document |
| ColumnPatches.ReplaceTouches | internal/server/qivitals_patching.go:221-245 | the operation that replaces a field touches exactly that column |
| Service.CollectColumns | internal/server/qivitals_patching.go:70-79 | the loop refuses exactly when some path is not patchable, and otherwise collects exactly the touched columns |
| Service.BuildJSONPatch | internal/server/qivitals_patching.go:135-161 | the loop builds one wire operation per request operation, failing exactly when a value is no JSON |
| Service.MapKeys | internal/server/qivitals_patching.go:251-257 | the keys come out once each, in some order |
| Service.ComputeUpdate | internal/server/qivitals_patching.go:69-108 | the update is that of the specification, and the column list names exactly the touched columns once |
| Service.SparseCommit | internal/server/qivitals_patching.go:107-111 | on a record with labels, storing the touched columns commits the whole patched document |
| Service.QiVitalsService.PatchSensor | internal/server/qivitals_patching.go:50-126 | a patch commits the whole patched document under a new version and answers the sensor then stored with its state and conditions, or changes nothing, with the error of the first check that fails |
| JsonPatch.EditEffect | internal/server/qivitals_patching.go:90-98 | at its own target an add (but at "-"), a replace, a test or a remove of an object member does what sections 4.1 to 4.3 and 4.6 of RFC 6902 say; removing something absent changes nothing |
| JsonPatch.EditAtParent | internal/server/qivitals_patching.go:90-98 | an edit succeeds exactly when it does on the container of its target, and leaves there what it leaves of the container alone |
| JsonPatch.ArrayEditEffect | internal/server/qivitals_patching.go:90-98 | in an array, elements before the target stay and those behind it move along, for add, remove, replace and test |
| JsonPatch.AddCreatesMember | internal/server/qivitals_patching.go:90-98 | an add below an absent or null member creates it: a list, padded with nulls up to the index, above an index or "-", else an object |
| JsonPatch.AddPadsList | internal/server/qivitals_patching.go:90-98 | an add below an element behind the end of a list keeps the list, fills the gap with nulls and creates the element |
| JsonPatch.EndIsLength | internal/server/qivitals_patching.go:90-98 | on the way of an add, "-" is the index behind the end of a list |
| JsonPatch.CopyAndMove | internal/server/qivitals_patching.go:90-98 | a copy puts the value of one member into another and a move takes it out of the first (sections 4.4 and 4.5 of RFC 6902), though no request gets that far |
| JsonPatch.WholeDocument | internal/server/qivitals_patching.go:90-98 | at the empty pointer the whole document is tested or replaced but not removed |
| JsonPatch.EditFrame | internal/server/qivitals_patching.go:90-98 | an edit leaves alone every value whose pointer parts from its own at an object |
| JsonPatch.RemoveUndoesAdd | internal/server/qivitals_patching.go:90-98 | removing what was just added, in an object or in the middle of an array, gives the document back |
| JsonPatch.RemoveOfAbsent | internal/server/qivitals_patching.go:90-93 | removing something absent succeeds and changes nothing, unless it would be an element of a list |
| JsonPatch.PointerRoundTrip | internal/server/qivitals_patching.go:82-89 | every JSON Pointer survives being printed and parsed, escapes included (sections 3 and 4 of RFC 6901) |
| JsonPatch.StrayTildesStay | internal/server/qivitals_patching.go:82-89 | a tilde that starts no escape is left as it is |
| JsonPatch.ArrayIndexIffDigits | internal/server/qivitals_patching.go:82-89 | a token is the array index i exactly when it is the decimal form of i (section 4 of RFC 6901) |
| MemoryStorage.MemorySensorStorage.Register | internal/storage/memory_storage.go:28-67 | registering on the map of records is the Register transition: refused for a known id or a taken (namespace, name), otherwise one new record and no other changed |
| MemoryStorage.MemorySensorStorage.Patch | internal/storage/memory_storage.go:70-113 | patching in place is the Patch transition: the two errors change nothing, success writes the listed columns of one record, its version and time |
| MemoryStorage.MemorySensorStorage.SendData | internal/storage/memory_storage.go:116-133 | a report merges its entries into one record and sets its time, and touches nothing else |
| MemoryStorage.SensorRecord.Merge | internal/storage/memory_storage.go:128-130 | copying entry by entry, in any order, is the right-biased merge |
| MemoryStorage.MemorySensorStorage.GetStatus | internal/storage/memory_storage.go:136-146 | the answer is the live record itself |
| MemoryStorage.MemorySensorStorage.Delete | internal/storage/memory_storage.go:238-248 | a delete removes one record, or fails and changes nothing |
| MemoryStorage.MemorySensorStorage.GetIdentity | internal/storage/memory_storage.go:251-265 | identity of the record under an id |
| MemoryStorage.MemorySensorStorage.FindIdentity | internal/storage/memory_storage.go:268-283 | some sensor of that namespace and name, or nothing when there is none |
| StoreModel.StepKeepsInvIff | internal/storage/memory_storage.go:28-113 | one call keeps "own id, non-nil labels, unique names" exactly when it is no renaming onto a name another sensor has |
| StoreModel.RunKeepsInv | internal/storage/storage.go:65-67 | every run without such a renaming keeps the invariant |
| StoreModel.RenameCanCollide | internal/storage/memory_storage.go:83-88 | a three-call run that leaves two sensors with one name, so the restriction is needed |
| StoreModel.FindIsInverseOfGet | internal/storage/memory_storage.go:251-283 | with unique names a search by name has one answer and is the inverse of looking up an id |
| StoreModel.StepKeepsRecords | internal/storage/memory_storage.go:28-133 | whatever is called, records stay under their own id with non-nil labels |
| StoreModel.ReportAndPatchCommute | internal/storage/memory_storage.go:70-133 | any report and any patch may be swapped: same outcomes, same final data |
| StoreModel.ReportMovesAcrossPatch | internal/storage/memory_storage.go:70-133 | in any run a report can be moved across a patch without changing where the run ends |
| StoreModel.InfosIgnoreReports | internal/storage/memory_storage.go:116-133 | over any run, what sensors are is unchanged by dropping all reports |
| StoreModel.ReportedDataIsMergeOfReports | internal/storage/memory_storage.go:127-130 | over any run without a delete of it, a sensor holds the right-biased merge of exactly its reports since registration |
| StoreModel.LastReportedIsLastReport | internal/storage/memory_storage.go:49-133 | over any run without a delete of it a sensor was last reported to at its last report since registration, or else at its registration |
| Sensors.SetColumnsIsOverlay | internal/storage/memory_storage.go:83-108 | column writes commute: the result depends on the set of columns only, not on order or repetition |
| MemoryStorage.MemorySensorStorage.Query | internal/storage/memory_storage.go:149-236 | the answer has no duplicates, only matches, min(limit, matches) of them, no omitted match sorting before an included one; every record has the id, name and namespace asked for, without other conditions none is missing, and records stand in the order asked for, spelled out on their fields |
| Filters.MatchesIff | internal/storage/memory_storage.go:156-204 | what the memory store selects, condition by condition: equal id, name and namespace where asked for, the search text in name or description whatever the case, labels with an absent one read as empty, and keys |
| MemoryStorage.MemorySensorStorage.CollectMatches | internal/storage/memory_storage.go:155-204 | the loop over the map collects exactly the matching ids, once each |
| MemoryStorage.SortInPlace | internal/storage/memory_storage.go:207-227 | sorting in place with the comparison that is passed, which is not strict when descending, still permutes the matches into order |
| MemoryStorage.Arrange | internal/storage/memory_storage.go:206-235 | sorting and truncating all matches gives an answer in the above sense |
| Queries.OrderIsTotal | internal/storage/memory_storage.go:208-226 | the order is total and the comparison decides it, also in the descending, non-strict form |
| Queries.InOrderIff | internal/storage/memory_storage.go:208-226 | by name, by last report, or for any other key by registration, in both directions |
| Queries.LexLessIff | internal/storage/memory_storage.go:213-214 | of two names the first difference decides, and a proper prefix comes first |
| Queries.OrderIsTransitive | internal/storage/memory_storage.go:208-226 | the order is transitive for every key and direction |
| Queries.AnswerIsComplete | internal/storage/memory_storage.go:229-235 | without a limit that is reached, every matching sensor is in the answer |
| Queries.AnswerIsUnique | internal/storage/memory_storage.go:206-235 | when no two matches rank the same there is only one answer, whatever order the map is walked in |
| Queries.StateQueryIsComplete | internal/server/qivitals_svc.go:152-195 | without a page size a query by state returns exactly the matching sensors in those states |
| Queries.StateQueryIsCompleteIff | internal/server/qivitals_svc.go:152-195 | a page finds every matching sensor in the states asked for, whatever those are, exactly when it was not cut at the page size |
| Queries.StateQueryCanMiss | internal/server/qivitals_svc.go:163-188 | a smallest miss: a page of one comes back empty although a sensor in a wanted state matches |
| Service.QiVitalsService.QuerySensors | internal/server/qivitals_svc.go:152-195 | the result is exactly the state-filtered subsequence of the page that storage answers |
| Service.QiVitalsService.KeepWanted | internal/server/qivitals_svc.go:171-191 | the loop keeps exactly the sensors of the page whose computed state was asked for, in order |
| Filters.StoresSelectTheSameIff | internal/storage/postgresql_storage.go:209-236 | among filters without a name, the memory predicate and the SQL predicate select the same sensors exactly for plain search text whose empty label values are all required as keys |
| Filters.StoresSelectTheSame | internal/storage/postgresql_storage.go:209-236 | for every filter with plain search text and its empty label values required as keys, both predicates select the same sensors |
| Filters.LikeIsContainsIff | internal/storage/postgresql_storage.go:219-225 | LIKE %search% means containment of search exactly when search has no wildcard or escape character |
| Filters.SqlMatchesIff | internal/storage/postgresql_storage.go:209-236 | what the WHERE clause selects for search text without wildcards, condition by condition; a label asked for must be there |
| Filters.LikeIsCharByChar | internal/storage/postgresql_storage.go:219-225 | a pattern without a bare % matches exactly the texts of its length with the characters it asks for, underscores and escapes included |
| Strings.ContainsIgnoresCase | internal/storage/memory_storage.go:169-177 | containment of lower-cased text is containment letter by letter, whatever the cases |
| Strings.LowerCharIff | internal/storage/memory_storage.go:169-177 | lower-casing makes two characters equal exactly when they are one letter in two cases, and leaves no capital |
| Filters.LabelAndKeyConditionsAgreeIff | internal/storage/postgresql_storage.go:227-236 | the conditions on labels and on label keys together agree on all sensors exactly when every label wanted empty is also required as a key |
| Pages.SamePagesIff | internal/storage/memory_storage.go:206-235 | two ordered selections have the same pages of a size exactly when pages of that size can hold the same elements and the orders agree on those |
| Pages.AnswersArePages | internal/storage/memory_storage.go:206-235 | what the memory store may answer are exactly the pages of its matches in its order |
| Pages.SizesTellPagesApart | internal/storage/memory_storage.go:229-235 | selections whose pages differ in size do not have the same pages |
| QueryAgreement.QueryAnswersAgreeIff | internal/storage/postgresql_storage.go:206-314 | for stores that hold the same rows, both answer a query and may answer the same pages exactly when Postgres takes its order and its text and the pages are of one size, can hold the same sensors and order those alike |
| QueryAgreement.OrderNeverPartsIff | internal/web/templates/components/filter.html:152-158 | asked for all sensors in an order, the stores never part exactly without an order or, if the database collates by code points, by name; of the orders the page offers, namespace is answered in two ways and last_updated and state by the memory store only |
| QueryAgreement.FilterNeverPartsIff | internal/storage/postgresql_storage.go:209-236 | in an order that means the same to both stores, the filters without a name on which they never part are exactly those without U+0000, without wildcards and with their empty label values required as keys |
| QueryAgreement.SameQueriesAgree | internal/storage/postgresql_storage.go:206-247 | such filters, also with a name, in such an order are answered alike whatever the stores hold |
| Simulation.SelectionsAgree | internal/storage/postgresql_storage.go:206-247 | after any simulated run both stores answer such a query and may answer the same pages |
| Simulation.StateQueriesAgree | internal/server/qivitals_svc.go:171-191 | where a query agrees, every page of the one store is one of the other, and keeping the sensors in the wanted states keeps the same of it |
| PostgresStorage.PostgresSensorStorage.Register | internal/storage/postgresql_storage.go:37-89 | the INSERT is the Register transition of the table, with a version of its own, the column lengths and the text the database refuses; rows keep holding only what the columns can |
| PostgresStorage.PostgresSensorStorage.Patch | internal/storage/postgresql_storage.go:97-153 | the statement builder and the guarded UPDATE are the Patch transition: early return, text that is refused, unique violation, then not found or version mismatch |
| PostgresStorage.PostgresSensorStorage.SendData | internal/storage/postgresql_storage.go:155-176 | each reported key gets its reported value, every other key, the info and all other rows stay; refused exactly for U+0000 or an unknown id, and then nothing changes |
| PostgresStorage.PostgresSensorStorage.Delete | internal/storage/postgresql_storage.go:190-204 | the row is gone and all others stay as they were, so that a second delete finds nothing; otherwise nothing changes |
| PostgresStorage.PostgresSensorStorage.Query | internal/storage/postgresql_storage.go:206-314 | the rows returned are a page of the matches: distinct, min(limit, matches) of them, in the requested order by the collation of the database with no omitted match before an included one; every row has the id, name and namespace asked for, without other conditions none is missing; an order column off the list or U+0000 in the filter is an error |
| PostgresStorage.PostgresSensorStorage.GetStatus | internal/storage/postgresql_storage.go:178-188 | the query by id with limit 1 finds that row or nothing; with an empty id it finds any row |
| PostgresModel.ByIdSelects | internal/storage/postgresql_storage.go:178-188 | selection by id is exact for a non-empty id and unrestricted for an empty one |
| PostgresModel.RegisterSpelled | internal/storage/postgresql_storage.go:61-89 | registering outcome by outcome: text refused, name or id taken, or one new row with non-nil labels, a version of its own and the registration time as report time |
| PostgresModel.PatchSpelled | internal/storage/postgresql_storage.go:97-153 | updating outcome by outcome: text refused, not found, version mismatch, unique violation, or one row with the written columns and all else kept |
| PostgresModel.DuplicatesIff | internal/storage/postgresql_storage.go:103-125 | a column is set twice in the statement exactly when it is listed twice; names that are no columns do not count |
| PostgresModel.ChangeTimeIsLater | internal/storage/postgresql_storage.go:128-131 | the time of the last change is the later of the stored and the given one |
| PostgresModel.TextColumnIff | internal/storage/postgresql_storage.go:37-59 | what is sent for a column is refused exactly for U+0000 in one of its texts |
| PostgresModel.VarCharIff | internal/storage/postgresql_storage.go:37-59 | a column of 255 characters takes what is no longer, cuts off spaces beyond and refuses the rest |
| PostgresModel.QueryRefusedIff | internal/storage/postgresql_storage.go:295-314 | a query is refused for an order off the list or for U+0000 in one of its texts |
| PostgresModel.ClausesSetTheSame | internal/storage/postgresql_storage.go:103-125 | leaving unknown column names out of the SET list changes nothing |
| PostgresModel.PatchKeepsTable | internal/storage/postgresql_storage.go:37-59 | after every update each row still sits under its id and holds only text that its columns can |
| Simulation.RunsFromStartAgree | internal/storage/storage_contract_test.go:13-376 | over every run of register, patch, report (by id or by name), delete and query requests from empty stores: outcomes agree, queries may be answered alike and the data is the same up to versions and last change time after each request, exactly when no request is one of those on which the stores part |
| Simulation.RunsAgreeIff | internal/storage/storage_contract_test.go:13-376 | the same from any related pair of stores |
| Simulation.StepAgreesIff | internal/storage/storage_contract_test.go:13-376 | one request leaves the stores agreeing exactly when it is none of those on which they part, a condition on the request and the memory store alone |
| Simulation.PatchAgreesIff | internal/storage/postgresql_storage.go:97-153 | a patch leaves the stores agreeing exactly when it sends no U+0000, and, under a current version, no name or namespace beyond 255 characters, no name another sensor has and no null labels |
| Simulation.RegisterAgreesIff | internal/storage/postgresql_storage.go:37-89 | registering leaves the stores agreeing exactly when nothing sent holds U+0000 and id, namespace and name fit 255 characters, or both refuse anyway |
| Simulation.ReportAgreesIff | internal/server/qivitals_svc.go:104-121 | reporting by id or by name leaves the stores agreeing exactly when the text of the look-up and, for a sensor that it finds, the data hold no U+0000 |
| Simulation.QueryAgreesIff | internal/storage/postgresql_storage.go:206-314 | a query leaves the stores agreeing exactly when it is none of those on which they part, told from the filter, the collation and the memory store alone |
| Simulation.DeleteAgreesIff | internal/server/qivitals_svc.go:123-137 | deleting leaves the stores agreeing exactly when the id holds no U+0000 |
| Simulation.ResolutionAgrees | internal/server/qivitals_svc.go:81-102 | by id or by name both services resolve to the same sensor or the same error exactly when the text of the look-up holds no U+0000; for that, and for nothing else, Postgres answers with an error of its own |
| Simulation.LongRenameParts | internal/storage/postgresql_storage.go:40-42 | renaming any sensor to 256 letters is committed in memory and refused by Postgres |
| Simulation.CutPatchDiffers | internal/storage/postgresql_storage.go:40-42 | a name that the database cut off, because only spaces were too many, is not the one the memory store holds |
| Simulation.VersionsAgree | internal/storage/postgresql_storage.go:101 | a version the client names matches in one store exactly when its counterpart matches in the other |
| Simulation.CommitKeepsRelated | internal/storage/postgresql_storage.go:132-153 | a patch committed by both stores leaves the same data under a pair of freshly issued versions |
| Simulation.SameWrite | internal/storage/postgresql_storage.go:103-125 | full document, memory columns and SQL columns all give the same data |
| Simulation.PatchedAlikeIffSameLabels | internal/storage/postgresql_storage.go:115-117 | two infos that differ only in a nil against an empty label map are patched alike by all requests exactly when both are nil or neither is |
| Simulation.NullLabelsTellStoresApart | internal/storage/postgresql_storage.go:115-117 | after any committed patch that puts null in place of the labels there is a request on which the two stores answer differently |
| Simulation.NullLabelsRunParts | internal/storage/postgresql_storage.go:115-117 | a run from empty stores, whatever sensor is registered first, that ends in such different answers |
| RuleEdits.EditsCompileCorrectly | cmd/qivitals-cli/cmd/update.go:219-290 | whenever the flags compile, the operations pass the allowlist, apply to the document and give the replaced survivors followed by the added rules, changing nothing else |
| RuleEdits.EditsReachTheSensor | cmd/qivitals-cli/cmd/update.go:184-199 | sent under the version of the sensor, the compiled operations commit exactly the edited rules; without any edit the request is refused as empty |
| RuleEdits.EditsAcceptedIff | cmd/qivitals-cli/cmd/update.go:219-290 | the flags compile exactly when every added rule has a colon, every removal index is in range of what is left and every replacement is numbered within what is left |
| RuleEdits.EditErrorIs | cmd/qivitals-cli/cmd/update.go:219-290 | additions are looked at first, then removals, then replacements, and the first that is refused decides the error |
| RuleEdits.RemoveErrorIs | cmd/qivitals-cli/cmd/update.go:246-252 | the first removal that is refused says whether its text is no number or its number out of range by then |
| RuleEdits.ReplaceErrorIff | cmd/qivitals-cli/cmd/update.go:262-277 | a replacement is refused for a missing colon, an index that is no number, one out of range, or a rule without a colon, in that order |
| RuleEdits.AtoiReadsNothingElse | cmd/qivitals-cli/cmd/update.go:246-249 | a text read as a number is digits behind at most one sign, within 64 bits |
| RuleEdits.AtoiReadsDecimals | cmd/qivitals-cli/cmd/update.go:246-249 | index texts are read as decimals with an optional sign, within 64 bits |
| RuleEdits.AllClearsAdditionsToo | cmd/qivitals-cli/cmd/update.go:236-244 | with "all" among the removals the final list is empty, added rules included, and no replacement can have compiled |
| RuleEdits.IndicesAreCanonical | cmd/qivitals-cli/cmd/update.go:219-290 | one operation per flag, by position: additions go behind the list, the j-th removal has an index below what j removals have left of the originals, every replacement one below what all have left, so none reaches a rule added by the same command; indices are sent in the canonical form of section 4 of RFC 6901 |
| RuleEdits.RemovesTurn | cmd/qivitals-cli/cmd/update.go:235-259 | removals act on the originals in front and never reach the rules behind them; the counter equals the survivors left |
| RuleEdits.AddsTurn | cmd/qivitals-cli/cmd/update.go:224-233 | the added rules end up behind the list, in order |
| RuleEdits.ReplacesTurn | cmd/qivitals-cli/cmd/update.go:262-287 | replacements act on the survivors at their positions after all removals |
| RuleEdits.CalculatePatchConditions | cmd/qivitals-cli/cmd/update.go:219-290 | the three loops with their running counter compute the specified operation list or error |
| RuleGrammar.RuleRoundTripIff | cmd/qivitals-cli/cmd/parsing_utils.go:64-81 | a rule survives being joined and parsed exactly when its name, expression and target hold no colon |
| RuleGrammar.AcceptedIsRejoined | cmd/qivitals-cli/cmd/parsing_utils.go:64-81 | every accepted string is spelled by the fields found in it, absent fields being empty |
| RuleGrammar.AcceptedIffColon | cmd/qivitals-cli/cmd/parsing_utils.go:65-68 | a string is accepted exactly when it has a colon |
| RuleGrammar.NumberedRuleSplits | cmd/qivitals-cli/cmd/update.go:262-266 | behind an index prefix the rule text comes back unchanged |
| RuleGrammar.ParseConditionRules | cmd/qivitals-cli/cmd/parsing_utils.go:83-93 | all rules in order, or an error exactly when one has no colon |
| ExtendedDuration.ExactIffShort | cmd/qivitals-cli/cmd/parsing_utils.go:43-62 | a count of days or weeks denotes that many exactly for N <= 106751 days or N <= 15250 weeks, and for no larger count |
| ExtendedDuration.AgreesWithHours | cmd/qivitals-cli/cmd/parsing_utils.go:51-58 | within that bound it means the same as its plain hour form |
| ExtendedDuration.HugeCountIsMinusOne | cmd/qivitals-cli/cmd/parsing_utils.go:48-58 | every count beyond 64 bits is accepted and means minus one day or minus one week |
| ExtendedDuration.LargeCountCanBeEightHours | cmd/qivitals-cli/cmd/parsing_utils.go:48-58 | a 64-bit count of days whose product wraps is accepted as eight hours |
| Durations.DurationRoundTrip | internal/web/templates/pages/sensor-details.html:77-117 | parsing the printed form of n gives n, for every natural n, at string level |
| Durations.PrintedListReadsBack | internal/web/templates/pages/sensor-details.html:83-100 | any printed list of counted units reads back as its weighted sum |
| Durations.ScanPrinted | internal/web/templates/pages/sensor-details.html:83-97 | the left-to-right search of the pattern finds exactly the printed counts and units |
| Durations.PartsOfClock | internal/web/templates/pages/sensor-details.html:105-114 | printed hours are below 24, minutes and seconds below 60, units descend, and the parts add up to n |
| Durations.MatchIsForced | internal/web/templates/pages/sensor-details.html:83 | at a given start the pattern has at most one match, however a matcher backtracks, and the greedy one finds it |
| Durations.Exec | internal/web/templates/pages/sensor-details.html:88 | the search returns the leftmost match from a position on, or none when none starts there |
| Durations.UnusableIff | internal/web/templates/pages/sensor-details.html:99 | a text is unusable exactly when it is no plain number and the pattern matches nowhere |
| Durations.ParseHumanToSeconds | internal/web/templates/pages/sensor-details.html:77-101 | the loop over matches computes the specified value |
| Durations.SecondsToHuman | internal/web/templates/pages/sensor-details.html:103-117 | the pushed and joined parts are the specified text |
| Durations.PlainNumberIsSeconds | internal/web/templates/pages/sensor-details.html:79-81 | a plain number reads back as that many seconds |
| CacheProtocol.CacheIsTransparent | internal/server/condition_evaluator.go:148-227 | under every interleaving of any number of threads on both caches and their one lock, each call answers what the uncached call would, each entry is what its key computes, and a bounded cache keeps its bound |
| CacheProtocol.AnswersAreTheEngines | internal/server/condition_evaluator.go:148-227 | under every interleaving each call is answered with what compiling or parsing its own text gives, or with nothing exactly when that fails |
| CacheProtocol.TemplatesStayBounded | internal/server/condition_evaluator.go:162-168 | whatever else goes on, the template cache never exceeds 1000 entries |
| CacheProtocol.ProgramCacheGrows | internal/server/condition_evaluator.go:199-227 | a run after which the program cache holds one entry for each of any number of expressions that compile |
| CacheProtocol.NeverStuck | internal/server/condition_evaluator.go:17-24 | while a call for either cache is under way, some thread can take a step: nobody waits for ever on the lock the caches share |
| CacheProtocol.NextKeepsData | internal/server/condition_evaluator.go:157-175 | eviction and insertion under the write lock keep all entries correct, with nothing changing between re-check and insert |
| CacheProtocol.NextKeepsLock | internal/server/condition_evaluator.go:149-159 | readers and the writer are exactly the threads in their sections, and a writer is alone |
| Evaluator.ConditionEvaluator.GetTemplate | internal/server/condition_evaluator.go:148-176 | the answer is that of parsing, the cache stays correct and bounded; a hit changes nothing |
| Evaluator.ConditionEvaluator.CompileExpression | internal/server/condition_evaluator.go:199-227 | the answer is that of compiling and the cache stays correct |
| Evaluator.ConditionEvaluator.Format | internal/server/condition_evaluator.go:179-196 | the message is that of parsing and rendering without a cache, with the fallbacks for an empty, unparsable or failing template |
| Evaluator.ConditionEvaluator.EvaluateSingleRule | internal/server/condition_evaluator.go:82-145 | the condition is that of evaluating the rule without caches |
| Evaluator.ConditionEvaluator.EvaluateConditions | internal/server/condition_evaluator.go:61-79 | the caches never show: one condition per non-nil rule, in order, as if evaluated afresh |
| Evaluator.ConditionSpelled | internal/server/condition_evaluator.go:82-196 | status, reason and message of a condition for every outcome of compiling, running, parsing and rendering; a condition that holds never has an empty message |
| Evaluator.NilRulesAreSkipped | internal/server/condition_evaluator.go:71-77 | a nil rule leaves no trace, and every other rule has its condition in its place |
| Health.ReportedStateIsMaximum | internal/server/qivitals_svc.go:199-224 | the reported state is the most severe of the time-based state and every rule's contribution, and never below the former, when for each expression the highest target found by name is the highest of the rules' own |
| Health.ReportedStateIsMaximumIff | internal/server/qivitals_svc.go:252-283 | that condition on the rule list is exact: without it some engine, sensor and time break the maximum |
| Health.OverrideIsContributionIff | internal/server/qivitals_svc.go:255-280 | each condition asks for what its rule contributes, for every engine and data, exactly when every rule found by its name has its own target |
| Health.DistinctNamesAreEnough | internal/server/qivitals_svc.go:268-279 | distinct names imply the condition, and two rules of one name and one target meet it too |
| Health.OverrideIsContribution | internal/server/qivitals_svc.go:255-280 | where rules found by name have their own target, each condition asks for exactly what its rule contributes by itself |
| Health.RuleOrderIsIrrelevant | internal/server/qivitals_svc.go:252-283 | under the condition, reordering the rules does not change the reported state |
| Health.OverridesTakeMaximum | internal/server/qivitals_svc.go:252-283 | folding the conditions takes the maximum of what they ask for, whatever their order |
| Health.ApplyConditionOverrides | internal/server/qivitals_svc.go:252-283 | the two nested loops compute that fold |
| Health.DuplicateNamesMislead | internal/server/qivitals_svc.go:268-279 | a list of two rules of one name that breaks the condition, and a sensor reported DEGRADED although a rule contributes FAILED |
| Health.HealthOnlyWorsensWithSilence | internal/server/qivitals_svc.go:235-283 | in any run segment without a report to, patch or delete of a sensor its severity never decreases as the clock advances, for any periods |
| Health.OverridesAreMonotone | internal/server/qivitals_svc.go:252-283 | a more severe base state never gives a less severe result |
| Health.SilenceKeepsRecord | internal/storage/memory_storage.go:28-133 | calls on other sensors leave a record as it is |
| Service.QiVitalsService.Evaluate | internal/server/qivitals_svc.go:226-248 | conditions and state of a sensor are those of the specification at that time; without rules the state is OK exactly while the last report is younger than the graceful period, DEGRADED exactly when it is not but younger than the failure period, FAILED otherwise, and with rules it is no better |
| Health.OneRuleDecides | internal/server/qivitals_svc.go:252-283 | a single rule: one that cannot be evaluated fails the sensor, one that does not hold does nothing, one that holds makes the state no better than its target, an unknown target does nothing |
| Health.StateIsNoBetter | internal/server/qivitals_svc.go:235-283 | rules never make the state better than the age of the last report allows |
| Service.QiVitalsService.RegisterSensor | internal/server/qivitals_svc.go:34-70 | registers under a non-empty id and the given fresh version and answers the sensor then stored with its state and conditions, or reports the storage error |
| Service.QiVitalsService.ReadBack | internal/server/qivitals_svc.go:59-70 | the answer is what the store holds under the id, with the state and the conditions of the specification at that time |
| Service.QiVitalsService.ResolveIdentity | internal/server/qivitals_svc.go:81-102 | by id if given, else by complete name, else refused |
| Service.QiVitalsService.ReportSensor | internal/server/qivitals_svc.go:104-121 | a report reaches a sensor that it names, the only one if ids or unique names decide, and answers what is then stored, or no sensor has that name and nothing changes |
| Service.QiVitalsService.DeleteSensor | internal/server/qivitals_svc.go:123-137 | deletes by id only |
| MagicLinks.LinksAreSingleUse | internal/auth/authn.go:233-311 | over every run of interleaved requests from both entry points, restarts included, a link id gives at most one session, for the email it was made for, presented and redeemed within 15 minutes of being made |
| MagicLinks.WebUsersRedeemedALink | internal/auth/authn.go:142-207 | whoever is let in by a web token is the user of an email for which a link was redeemed and a session begun less than 30 days ago; the token of a link lets nobody in |
| MagicLinks.SessionsLetIn | internal/auth/authn.go:142-207 | over every run each session has its token, which lets in exactly the user of its email until 30 days after it was issued, in whole seconds, and nobody later |
| MagicLinks.SessionTokenIsNoLink | internal/auth/authn.go:292-311 | presenting a session token as a link gives nothing and changes nothing |
| MagicLinks.FirstUseSucceeds | internal/auth/authn.go:292-311 | the first to use an unexpired link gets a session for the recorded email |
| MagicLinks.TokenExpiresFirst | internal/auth/authn.go:245-254 | since token times are truncated to seconds, the store refuses an unexpired token only when the link was used or lost |
| MagicLinks.LinksLast | internal/auth/authn.go:233-262 | every link handed out is good for exactly 15 minutes from the moment it was made, in whole seconds in its token |
| MagicLinks.NextKeepsInv | internal/auth/authn.go:233-311 | every step keeps each link id in exactly one place: being signed, stored, held by one request, spent or lost |
| MagicLinkStore.InMemoryMagicLinkStore.Record | internal/auth/magiclink.go:34-43 | recording adds an unused entry |
| MagicLinkStore.InMemoryMagicLinkStore.Validate | internal/auth/magiclink.go:45-57 | accepted exactly when stored and not past its expiry, whatever the email argument; then the link is gone, and no stored entry is ever marked used |
| Snapshots.OrderIrrelevantIffUnique | internal/storage/snapshot_storage.go:102-125 | loading a snapshot gives the same store in every walking order exactly when (namespace, name) pairs are unique |
| Snapshots.LoadsRestored | internal/storage/snapshot_storage.go:102-125 | with unique names every sensor is restored, whatever the order |
| Snapshots.FirstNamesakeWins | internal/storage/snapshot_storage.go:116-121 | of two namesakes the one loaded first is kept and the other lost |
| Snapshots.NamesakeStaysOut | internal/storage/snapshot_storage.go:116-121 | once a sensor is loaded, another of the same name is never loaded later |
| Snapshots.RestoreForgetsOnlyReports | internal/storage/memory_storage.go:49-64 | a restart keeps every info but the time of its last change, empties the reports and sets the report time to the registration time |
| Snapshots.RestoreIsIdempotent | internal/storage/snapshot_storage.go:68-125 | from then on saving and loading changes nothing |
| Snapshots.RestoreNeverImprovesHealth | internal/server/qivitals_svc.go:235-248 | the time-based state of a sensor is never better after a restart |
| Snapshots.SnapshotStorage.TakeSnapshot | internal/storage/snapshot_storage.go:68-80 | the file holds exactly the contents of the store |
| Snapshots.SnapshotStorage.LoadInitialState | internal/storage/snapshot_storage.go:102-125 | loading registers every sensor of the file once, in some order, on whatever the store held |
| Snapshots.SnapshotStorage.constructor | internal/storage/snapshot_storage.go:24-43 | wrapping a store first loads the file into it |

## Left out

- Evaluator.ConditionEvaluator.EvaluateSingleRule: leaves out the wording of error messages and the transition time.
- MemoryStorage.SortInPlace: is an insertion sort; the library sort switches algorithm with the length, and with the non-strict descending comparison its result for long inputs is not covered.
- Simulation.RegisterAgreesIff: counts a registration whose id Postgres cuts off as served and parting; the handler then fails to read it back under the full id.
- JsonPatch.EditEffect: leaves an add at "-" and a remove inside an array to `JsonPatch.EditAtParent` and `JsonPatch.ArrayEditEffect`, and describes RFC 6902 with missing-path removes and created containers; the leniency of the patch library beyond that (signed, padded or negative indices, null array elements, missing values) is not modelled.
- Snapshots.SnapshotStorage.TakeSnapshot: treats the file as a value. The program writes the live records out after the lock is released, so a patch or report in between can leave a mixed record in the file; that, renaming, comparing bytes and the ticker are not modelled.
- MagicLinks.LinksAreSingleUse: bounds the time of redemption; the session may be issued later when the request is held up in between.
- Text forms of JSON: documents and values are trees, so number formatting, duplicate members and case-insensitive member names of the decoder are not modelled.
- Lower-casing outside ASCII (the search of both stores ignores the case of A to Z only), invalid UTF-8, and JavaScript numbers beyond 2^53.
- Dereferencing a nil rule while health is derived, and a nil record or info in a store or snapshot.
- The existence check of the Postgres update runs as a second statement; here both are one step.
- Epoch rounding of the database clock, and failures of the database other than those named, such as values of many megabytes.
- Command-line tokens signed with user keys; the web tokens only are modelled.
- gRPC, the HTTP gateway, TLS, authorization, email, logging, HTML rendering, configuration, sensor readers, label and state parsing of the command line, and patches read from files.
