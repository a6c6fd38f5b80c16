# Directus sandbox upload scripts, modelled in Dafny

This project models the two upload scripts of the Directus sandbox.

- `scripts/upload-flows.js` takes a snapshot of the remote flows, then walks the flows directory.
  - Each `.json` flow definition is sent by PATCH when the snapshot lists its id, and by POST otherwise.
  - The flow's operations are then ordered depth-first along their `resolve` and `reject` edges by `sortOperations`.
  - They are sent one by one, each by PATCH or POST according to the snapshot. An operation whose `reject` names no operation of the flow is skipped.
- `scripts/upload-collections.js` first clears the remote cache. For every collection definition file, it:
  - creates the collection when the remote does not list its name;
  - lists the remote fields and creates the missing ones, each without its remote-assigned `meta.id`;
  - keeps the relations aside.

  After the last file, it lists each collection's remote relations and creates those whose (field, related collection) pair is not listed.

Files:

- `records.dfy` (module `Records`): the JSON values and definition records the scripts read: fields, relations, collections, operations and flows.
- `remote.dfy` (module `Remote`): the remote service.
  - A `Gateway` appends every request to a log, in the order the script awaits them.
  - It answers each request from a positional outcome oracle.
  - A listing answer is a `Listing` value: either `FetchFailed`, or the items.
- `sequencer.dfy` (module `Sequencer`): `sortOperations`.
  - `Sequenced` is the specification.
  - The class `OperationSorter` and the method `SortOperations` are the imperative traversal, proved equal to it.
- `flows.dfy` (module `FlowUpload`): the flow upload.
  - `RunLog` is the specification: the exact request log of a run.
  - The class `FlowUploader` holds the `existingFlows` map and issues the requests. Its methods are proved to produce that log.
- `collections.dfy` (module `CollectionUpload`): the collection upload.
  - `RunLog` is the specification.
  - The class `CollectionUploader` issues the requests.

Each script's requests are data: `FlowCall` and `CollectionCall`. A run is specified by the sequence of requests it issues. Properties of a run are lemmas about that sequence.

Behaviours of the code worth knowing, which the model follows:

- `sortOperations` keeps no visited set. A cycle of followed edges recurses until the JavaScript stack overflows. That RangeError is caught per file, after the flow request has been sent.
- A failed `GET /collections` does not abort the collection upload. `fetchExistingCollections` returns an empty list, so every collection is posted.
- A refused operation request is not skipped. `uploadOperation` throws, and the rest of that flow's operations are not sent. The next file is still processed.
- Only the download script excludes system collections. The upload sends every definition file.
- `GET /operations?filter[flow]=…` is never issued. Operation existence is read from the `operations` id list of the flow snapshot.
- A collection file that cannot be read or parsed ends the whole collection run. This includes the relation phase, even for files already processed.

## Model

A row whose third column starts with "definition:" names the function that computes what the cited lines do; the rows around it state what is proved about it.

| member | source | states |
|---|---|---|
| Sequencer.OperationMap | scripts/upload-flows.js:42-45 | definition: the operationMap, each id mapped to the last operation carrying it |
| Sequencer.OperationMapKeyed | scripts/upload-flows.js:42-45 | the operation map has exactly the ids of the flow's operations as keys, each mapped to an operation of the flow with that id |
| Sequencer.LastOccurrenceWins | scripts/upload-flows.js:42-45 | an operation whose id does not occur later in the list is the map's entry for that id (Map.set overwrites) |
| Sequencer.Append | scripts/upload-flows.js:60-63 | definition: the push guarded by the includes test, comparing by id |
| Sequencer.Visit | scripts/upload-flows.js:48-64 | definition: addOperation with a stack of `depth` frames; it visits the resolve target, then the reject target, then appends the operation; an id missing from the map returns at once, and None stands for the RangeError of an exhausted stack |
| Sequencer.Follow | scripts/upload-flows.js:53-58 | definition: following a resolve or reject edge whose target is a map key; any other edge leaves the output as it is |
| Sequencer.Sweep | scripts/upload-flows.js:66 | definition: the forEach calling addOperation on each id in turn, stopping at the first overflow |
| Sequencer.Sequenced | scripts/upload-flows.js:41-69 | definition: the result of sortOperations, the sweep over the operations from an empty output, or None when it raises a RangeError |
| Sequencer.AppendPlaced | scripts/upload-flows.js:60-63 | the guarded push keeps the output free of repeated ids, drawn from the map and with dependencies first, and only extends it |
| Sequencer.VisitPlaces | scripts/upload-flows.js:48-64 | a completed addOperation only appends, keeps every followed target before its source, and places the visited id |
| Sequencer.FollowPlaces | scripts/upload-flows.js:53-58 | following a resolve or reject edge that completes places its target and keeps the output well placed |
| Sequencer.SweepPlaces | scripts/upload-flows.js:66 | a completed forEach over the operations places the id of every operation it visits |
| Sequencer.SequencedPlaces | scripts/upload-flows.js:41-69 | a completed sort returns each map entry exactly once, with every followed target before the operation pointing to it |
| Sequencer.VisitCompletes | scripts/upload-flows.js:48-64 | when the followed edges are ranked below the stack depth, addOperation never overflows |
| Sequencer.FollowCompletes | scripts/upload-flows.js:53-58 | under the same ranking, following an edge never overflows |
| Sequencer.SweepCompletes | scripts/upload-flows.js:66 | under the same ranking, the whole forEach completes |
| Sequencer.SequencedElements | scripts/upload-flows.js:41-69 | with unique ids, a completed sort holds exactly the input operations |
| Sequencer.AcyclicSortIsPermutation | scripts/upload-flows.js:41-69 | acyclic followed edges within the stack depth and unique ids: the sort completes, returns a permutation of the input, and puts dependencies first |
| Sequencer.VisitOverflows | scripts/upload-flows.js:48-64 | entering a set of operations closed under followed edges never returns, for any stack depth |
| Sequencer.SweepOverflows | scripts/upload-flows.js:66 | a forEach that reaches an id of such a set overflows |
| Sequencer.CycleOverflows | scripts/upload-flows.js:41-69 | a cycle of followed edges makes sortOperations raise a RangeError, whatever the stack size |
| Sequencer.MutualResolveOverflows | scripts/upload-flows.js:53-55 | two operations resolving to each other overflow |
| Sequencer.OperationSorter.constructor | scripts/upload-flows.js:42-45 | the map built by the forEach over the operations is OperationMap, and the output starts empty |
| Sequencer.OperationSorter.AddOperation | scripts/upload-flows.js:48-64 | the recursive addOperation reports an overflow exactly when Visit does, and otherwise leaves the output Visit computes |
| Sequencer.SortOperations | scripts/upload-flows.js:41-69 | the imperative sort returns exactly Sequenced, including the overflow case |
| FlowUpload.ExtName | scripts/upload-flows.js:200 | definition: path.extname of an entry name, from the last dot on, or empty when that dot comes first or the name is ".." |
| FlowUpload.LastDotIsLast | scripts/upload-flows.js:200 | the dot found is the last one, and no dot found means the name has none |
| FlowUpload.JsonExtension | scripts/upload-flows.js:200 | an entry is processed if and only if its name ends in ".json" with at least one character before it |
| FlowUpload.HiddenJsonSkipped | scripts/upload-flows.js:200 | ".json" and "f1.json.bak" are skipped, "f1.json" is processed |
| FlowUpload.ExistingFlows | scripts/upload-flows.js:18-39 | definition: the snapshot used for the rest of the run, filled from the listing when GET /flows returned an array and empty otherwise |
| FlowUpload.Filled | scripts/upload-flows.js:31-32 | after the forEach, the map's keys are the old keys plus every listed flow id |
| FlowUpload.FilledLastWins | scripts/upload-flows.js:32 | a listed flow is the entry for its id unless a later listed flow has the same id |
| FlowUpload.FilledKeepsUnlisted | scripts/upload-flows.js:32 | an id no listed flow has keeps its entry |
| FlowUpload.FlowRequest | scripts/upload-flows.js:72-95 | PATCH exactly when the snapshot has the flow id, POST otherwise; the body has no operations and no user_created, and keeps id and all other attributes |
| FlowUpload.FindOperation | scripts/upload-flows.js:110-143 | definition: true exactly when the snapshot holds the flow, its operations is an id array, and that array contains the id |
| FlowUpload.RejectDangles | scripts/upload-flows.js:149-151 | definition: the operation has a truthy reject, and no operation of the file carries that id |
| FlowUpload.SomeHasId | scripts/upload-flows.js:151 | definition: the `some` test, true exactly when an operation of the list carries the id |
| FlowUpload.OperationAttempt | scripts/upload-flows.js:145-191 | definition: uploadOperation sends nothing and succeeds for a dangling reject, and otherwise sends OperationRequest and fails when it is refused |
| FlowUpload.OperationsAttempt | scripts/upload-flows.js:105-107 | definition: the for-of loop over the sorted operations, each request at the next log position, stopping at the first that throws |
| FlowUpload.FlowAttempt | scripts/upload-flows.js:71-108 | definition: uploadFlow sends FlowRequest; it stops there when the request is refused, when the file has no operations array, or when sortOperations overflows; otherwise it runs the operation loop |
| FlowUpload.OperationRequest | scripts/upload-flows.js:159-184 | PATCH exactly when findOperation finds the id in the flow's snapshot entry, POST otherwise; the body has no user_created, its flow is the owning flow, and its edges and attributes are kept |
| FlowUpload.OperationsIssueInOrder | scripts/upload-flows.js:105-107 | the operation loop issues the requests of the operations whose reject does not dangle, in sorted order: a prefix of them, or all of them when it completes |
| FlowUpload.OperationsStopAtRefusal | scripts/upload-flows.js:186-190 | only the last request of the loop can have been refused, and the loop completes exactly when none was |
| FlowUpload.FlowAttemptShape | scripts/upload-flows.js:71-108 | uploadFlow sends the flow request first; a refused flow request sends nothing more; a completed upload sent every uploadable operation in sorted order |
| FlowUpload.CyclicFlowSendsOnlyTheFlow | scripts/upload-flows.js:103 | a cycle among a flow's operations leaves only the flow request in the log, and that file fails |
| FlowUpload.Readable | scripts/upload-flows.js:199-211 | definition: the flows of the .json entries that read and parse, in directory order |
| FlowUpload.FlowUploadCalls | scripts/upload-flows.js:204 | definition: the requests of one uploadFlow call against the snapshot, given the log position of its first request |
| FlowUpload.Chain | scripts/upload-flows.js:199-212 | definition: the loop's log, each flow's upload starting where the previous one stopped, whether or not that one failed |
| FlowUpload.RunLog | scripts/upload-flows.js:193-218 | definition: GET /flows, then, when the listing succeeds, the chained uploads of the readable flows against its snapshot |
| FlowUpload.SelectedFileUploaded | scripts/upload-flows.js:199-211 | every .json entry that reads and parses has its flow among those the loop uploads |
| FlowUpload.OnlySelectedFilesUploaded | scripts/upload-flows.js:199-211 | every flow the loop uploads comes from a .json entry that reads and parses to it |
| FlowUpload.ReadableStep | scripts/upload-flows.js:199-211 | one more directory entry adds its flow to the uploaded ones when it is a .json entry that parses, and nothing otherwise |
| FlowUpload.ChainAppend | scripts/upload-flows.js:199-212 | one more uploaded flow appends its requests after those of the flows before it, starting where they stopped |
| FlowUpload.ChainReachesEach | scripts/upload-flows.js:199-212 | a failing file never stops the loop: every flow's requests are issued in full and contiguously, right after those of the flows before it, at the log position where they stop |
| FlowUpload.ChainWithout | scripts/upload-flows.js:199-212 | a request that no single upload issues is never issued by the loop |
| FlowUpload.EveryFlowReached | scripts/upload-flows.js:199-212 | the flow request of every flow of the loop is issued |
| FlowUpload.EveryJsonFileReached | scripts/upload-flows.js:193-212 | after a successful listing, every .json entry that parses gets its flow request, whatever failed before it |
| FlowUpload.OperationCallsOnly | scripts/upload-flows.js:105-107 | the operation loop sends only operation requests |
| FlowUpload.NoListingInFlow | scripts/upload-flows.js:71-108 | uploadFlow never lists the flows, and everything after its first request is an operation request |
| FlowUpload.SnapshotTakenOnce | scripts/upload-flows.js:193-197 | GET /flows is the first request and is never repeated; a failed listing ends the run there |
| FlowUpload.ExampleSorted | scripts/upload-flows.js:41-69 | a (resolve b), b, c (dangling reject) sort to b, a, c |
| FlowUpload.ExampleOperations | scripts/upload-flows.js:149-157 | against an empty remote, b and a are created and c is skipped |
| FlowUpload.DanglingRejectScenario | scripts/upload-flows.js:193-212 | the whole run for f1.json: list, create f1 without its operations, create b, create a |
| FlowUpload.FlowUploader.constructor | scripts/upload-flows.js:16 | the existingFlows map starts empty |
| FlowUpload.FlowUploader.FetchAllFlows | scripts/upload-flows.js:18-39 | one GET /flows; a failure reports false, a non-array payload leaves the map unchanged, and otherwise every listed flow is set by id |
| FlowUpload.FlowUploader.UploadOperation | scripts/upload-flows.js:145-191 | the log grows by exactly OperationAttempt's requests, and the result says whether it threw |
| FlowUpload.FlowUploader.UploadFlow | scripts/upload-flows.js:71-108 | the log grows by exactly FlowAttempt's requests, and the result says whether it threw |
| FlowUpload.FlowUploader.UploadOperations | scripts/upload-flows.js:105-107 | the for-of loop appends exactly OperationsAttempt's requests |
| FlowUpload.FlowUploader.ProcessFlows | scripts/upload-flows.js:193-218 | the whole run appends exactly RunLog to the log |
| FlowUpload.FlowUploader.UploadFiles | scripts/upload-flows.js:199-212 | the directory loop appends the uploads of the selected entries, one after the other |
| FlowUpload.FlowUploader.UploadFile | scripts/upload-flows.js:200-211 | a .json entry that reads and parses is uploaded; any other entry adds nothing to the log |
| CollectionUpload.StripMetaId | scripts/upload-collections.js:96-98 | the stripped field has no truthy meta.id; a field without one is unchanged; otherwise only the "id" key of meta is removed, and name and attributes are kept |
| CollectionUpload.StripIdempotent | scripts/upload-collections.js:126-128 | stripping an already stripped field changes nothing |
| CollectionUpload.StripAll | scripts/upload-collections.js:95-99 | every field of the list is stripped, in order |
| CollectionUpload.Stripped | scripts/upload-collections.js:93-100 | createCollection strips the fields when there are any, and keeps the name, relations and attributes |
| CollectionUpload.MissingFields | scripts/upload-collections.js:206-208 | definition: the filter of the fields whose name is not in the field listing |
| CollectionUpload.MissingFieldsSelects | scripts/upload-collections.js:206-208 | the filter keeps exactly the fields whose name is not listed; an empty listing keeps all of them, and a full listing keeps none |
| CollectionUpload.MissingFieldsAppend | scripts/upload-collections.js:206-208 | the filter keeps the input order: one more field is added at the end exactly when its name is not listed |
| CollectionUpload.FieldPosts | scripts/upload-collections.js:124-149 | definition: one POST per field, stripped of its id, each refusal only logged |
| CollectionUpload.FieldPostsEach | scripts/upload-collections.js:125-137 | one POST per field, in order, each carrying the stripped field |
| CollectionUpload.StripBeforeFilterPostsTheSame | scripts/upload-collections.js:200-212 | createCollection's in-place strip does not change which fields are posted afterwards, nor their bodies |
| CollectionUpload.StripKeepsFieldCalls | scripts/upload-collections.js:200-212 | the field requests of a stripped collection equal those of the original |
| CollectionUpload.FieldPostsAppend | scripts/upload-collections.js:125-137 | one more field to create adds exactly one POST, of that field stripped, at the end |
| CollectionUpload.RelationPostsAppend | scripts/upload-collections.js:154-187 | one more relation adds its POST at the end when its key is not listed, and nothing otherwise |
| CollectionUpload.FieldPostIsMissing | scripts/upload-collections.js:204-212 | each field post of the filter goes to that collection and carries, stripped, a field whose name is not listed |
| CollectionUpload.FieldPostedOnlyIfMissing | scripts/upload-collections.js:204-212 | a field of the definition is posted, stripped, if and only if its name is not in the field listing |
| CollectionUpload.FieldPostsSelect | scripts/upload-collections.js:204-212 | a field is posted if and only if its name is not listed, and every field post goes to that collection with an unlisted name |
| CollectionUpload.FileCallsSelect | scripts/upload-collections.js:200-213 | the collection is created if and only if its name is not listed; its fields are listed if and only if it has fields; a field is posted if and only if its name is not in that listing |
| CollectionUpload.AnySameKey | scripts/upload-collections.js:157-166 | definition: some listed relation has the same field and related_collection |
| CollectionUpload.RelationPosts | scripts/upload-collections.js:154-187 | definition: one POST per relation whose key is not listed, each refusal only logged |
| CollectionUpload.RelationCalls | scripts/upload-collections.js:151-188 | definition: createRelationsForCollection, the relation listing and then RelationPosts against it |
| CollectionUpload.FieldCalls | scripts/upload-collections.js:204-213 | definition: when the definition has fields, the field listing and then the posts of the missing fields |
| CollectionUpload.FileCalls | scripts/upload-collections.js:200-213 | definition: the requests for one parsed definition, its stripped POST when its name is unlisted, then FieldCalls |
| CollectionUpload.FilesPhase | scripts/upload-collections.js:195-222 | definition: the definition loop; it builds the requests and relationsToCreate, file by file, and stops at the first file that fails to read or parse |
| CollectionUpload.Kept | scripts/upload-collections.js:215-221 | definition: relationsToCreate as the definitions give it, one entry per definition with relations, in file order |
| CollectionUpload.RelationsPhase | scripts/upload-collections.js:225-227 | definition: the loop over relationsToCreate, the j-th entry answered by the j-th relation listing |
| CollectionUpload.UploadLog | scripts/upload-collections.js:190-230 | definition: uploadCollections, the collection listing, then the definition loop, then the relation loop when every file was read and parsed |
| CollectionUpload.RunLog | scripts/upload-collections.js:232-240 | definition: main, the cache reset followed by uploadCollections |
| CollectionUpload.RelationPostsSelect | scripts/upload-collections.js:154-187 | a relation is posted if and only if no listed relation has its field and related collection; nothing else is posted |
| CollectionUpload.AuthorRelationAlreadyExists | scripts/upload-collections.js:157-166 | any listed author→users relation makes a local author→users relation existing, whatever the other attributes |
| CollectionUpload.AnySameKeyMeans | scripts/upload-collections.js:157-166 | the existence check holds exactly when some listed relation has the same field and related collection |
| CollectionUpload.RelationsPhaseCalls | scripts/upload-collections.js:225-227 | the relation loop issues only relation requests |
| CollectionUpload.FilesPhaseCalls | scripts/upload-collections.js:195-222 | the definition loop issues only collection and field requests |
| CollectionUpload.UploadLogShape | scripts/upload-collections.js:190-227 | uploadCollections lists the collections first, then issues only collection and field requests, then only relation requests |
| CollectionUpload.CacheClearedFirst | scripts/upload-collections.js:232-240 | the cache is cleared first, the collections are listed second, and neither request is issued again |
| CollectionUpload.RelationsLast | scripts/upload-collections.js:224-227 | once a relation request is issued, every later request is a relation request |
| CollectionUpload.FilesPhaseHalts | scripts/upload-collections.js:196-198 | after a file fails to read or parse, the later files change nothing |
| CollectionUpload.ParseFailureStopsRun | scripts/upload-collections.js:194-198 | a file that fails to read or parse ends the run after the requests of the files before it, and no relation is created at all |
| CollectionUpload.FilesPhasePrefix | scripts/upload-collections.js:195-222 | the requests for the first n files are a prefix of the requests for all of them |
| CollectionUpload.AllParsedCompletes | scripts/upload-collections.js:195-222 | when every file parses, the definition loop completes |
| CollectionUpload.FileReached | scripts/upload-collections.js:195-222 | every request for the k-th file is issued when it and all files before it parse |
| CollectionUpload.UnlistedCollectionCreated | scripts/upload-collections.js:200-202 | a collection the remote does not list is created, stripped; after a failed listing, every collection is created |
| CollectionUpload.UnlistedFieldCreated | scripts/upload-collections.js:204-212 | a field the remote does not list for its collection is created without its id |
| CollectionUpload.ListedCollectionNotRecreated | scripts/upload-collections.js:200-202 | no collection whose name is listed is ever posted |
| CollectionUpload.RelationsPhasePrefix | scripts/upload-collections.js:225-227 | the relation requests for the first n entries are a prefix of all of them |
| CollectionUpload.PendingRelationCreated | scripts/upload-collections.js:225-227 | the relation loop creates each relation of an entry whose listing lacks its key |
| CollectionUpload.RelationsPhaseOrder | scripts/upload-collections.js:225-227 | the relation loop lists the relations of its entries in their order |
| CollectionUpload.UnlistedRelationCreated | scripts/upload-collections.js:215-227 | when every file parses, each relation of a definition whose key the listing fetched for that file's entry lacks is created |
| CollectionUpload.PendingIsKept | scripts/upload-collections.js:192-221 | a completed definition loop has kept exactly one entry per definition with relations, in file order |
| CollectionUpload.KeptPrefix | scripts/upload-collections.js:215-221 | the entries of the first n files come first in relationsToCreate |
| CollectionUpload.KeptEntry | scripts/upload-collections.js:215-221 | the k-th file's entry follows those of the files before it |
| CollectionUpload.KeptOrigin | scripts/upload-collections.js:215-221 | every entry of relationsToCreate is the entry of one file with relations, after those of the files before it |
| CollectionUpload.KeptInFileOrder | scripts/upload-collections.js:195-221 | a file read earlier has its entry earlier in relationsToCreate |
| CollectionUpload.RelationsPhaseOrigin | scripts/upload-collections.js:225-227 | the relation loop creates a relation only for an entry whose listing lacks its key |
| CollectionUpload.RelationsPhaseAt | scripts/upload-collections.js:225-227 | the j-th entry's relation listing comes right after all requests of the entries before it |
| CollectionUpload.RelationsPhaseGrows | scripts/upload-collections.js:225-227 | each entry adds at least its listing request |
| CollectionUpload.RelationCreatedOnlyIfUnlisted | scripts/upload-collections.js:190-227 | every relation a run creates is a relation of a parsed definition whose key the listing for that file's entry lacks |
| CollectionUpload.FilesPhaseOrigin | scripts/upload-collections.js:195-213 | every request of the definition loop comes from one parsed definition, with that file's field listing |
| CollectionUpload.FileFieldOrigin | scripts/upload-collections.js:204-212 | a field post among one definition's requests posts one of its unlisted fields, stripped |
| CollectionUpload.FieldCreatedOnlyIfUnlisted | scripts/upload-collections.js:190-213 | every field a run creates is, without its id, a field of a parsed definition of that collection whose name its field listing lacks |
| CollectionUpload.RelationsInFileOrder | scripts/upload-collections.js:190-227 | when every file parses, the relation listing of an earlier file with relations is issued before that of a later one |
| CollectionUpload.FilesPhasePostsNothing | scripts/upload-collections.js:195-222 | when the remote lists every collection and field of the files, the definition loop only lists |
| CollectionUpload.RelationsPhasePostsNothing | scripts/upload-collections.js:225-227 | when every kept relation's key is listed, the relation loop only lists |
| CollectionUpload.SecondRunPostsNothing | scripts/upload-collections.js:190-240 | a run against a remote that lists every collection and field of the files, and every relation of each file in the listing fetched for it, creates nothing |
| CollectionUpload.ArticlesRequests | scripts/upload-collections.js:200-212 | the articles definition against a remote listing articles and title: the fields are listed and only summary is posted, without its id |
| CollectionUpload.ArticlesScenario | scripts/upload-collections.js:200-212 | remote articles with title, local articles adding summary: no collection create, one field create for summary, without its id |
| CollectionUpload.RelationExists | scripts/upload-collections.js:155-166 | the inner loop with break finds a match exactly when some listed relation has the same field and related collection |
| CollectionUpload.StripFieldIds | scripts/upload-collections.js:94-100 | the loop strips every field, as StripAll does |
| CollectionUpload.CollectionUploader.ResetCache | scripts/upload-collections.js:76-91 | one POST to clear the cache; a refusal is only logged |
| CollectionUpload.CollectionUploader.FetchExistingCollections | scripts/upload-collections.js:16-31 | one GET /collections, returning the listed names or none on failure |
| CollectionUpload.CollectionUploader.FetchExistingFields | scripts/upload-collections.js:33-51 | one GET /fields/{collection}, returning the listed names or none on failure |
| CollectionUpload.CollectionUploader.FetchExistingRelations | scripts/upload-collections.js:53-74 | one GET /relations/{collection}, returning the listed relations or none on failure |
| CollectionUpload.CollectionUploader.CreateCollection | scripts/upload-collections.js:93-122 | posts the stripped collection and hands it back to the caller |
| CollectionUpload.CollectionUploader.CreateFieldsForCollection | scripts/upload-collections.js:124-149 | one POST per field, stripped, regardless of refusals |
| CollectionUpload.CollectionUploader.CreateRelationsForCollection | scripts/upload-collections.js:151-188 | the relations listing, then a POST for each relation whose key is not listed |
| CollectionUpload.CollectionUploader.UploadCollections | scripts/upload-collections.js:190-230 | the log grows by exactly UploadLog, and the result says whether every file parsed |
| CollectionUpload.CollectionUploader.UploadFiles | scripts/upload-collections.js:195-222 | the file loop issues the definition requests and keeps the relations as FilesPhase does, stopping at a parse failure |
| CollectionUpload.CollectionUploader.UploadDefinition | scripts/upload-collections.js:200-221 | one parsed definition issues exactly FileCalls, although createCollection strips its fields in place |
| CollectionUpload.CollectionUploader.UploadFields | scripts/upload-collections.js:204-213 | the field listing, then the posts of the missing fields |
| CollectionUpload.CollectionUploader.CreateAllRelations | scripts/upload-collections.js:225-227 | the relation loop issues exactly RelationsPhase |
| CollectionUpload.CollectionUploader.Run | scripts/upload-collections.js:232-240 | main's log is exactly RunLog: the cache reset, then uploadCollections |

## Left out

- HTTP, URLs, headers, bearer tokens and JSON serialisation are not modelled. A request is a `FlowCall` or `CollectionCall` value, and its body is the record it would serialise.
- Response payloads are parameters. The flow listing is a `FlowListing`. Collection, field and relation listings are `Listing` values in a `RemoteState`. The verdicts on other requests come from the gateway's positional `outcomes` oracle.
- `readdir` is a parameter: the directory entries, in order. A failing `readdir` is not modelled.
- `readFile` and `JSON.parse` are parameters: an entry's `content` is `None` when reading or parsing fails, or when the JSON value is `null`. For `null` the scripts throw a TypeError before any request of that file, as the model does.
- A file whose JSON is a number, string, boolean or array is not modelled; the model treats it like an unreadable file. `uploadCollections` would POST that value to /collections and go on with the next file and the relation phase, while the model ends the run at that file. `processFlows` would send the value to /flows and fail that file only after that request (at `sortOperations` when it is accepted), while the model sends nothing for it.
- Console output, the final summary lines and the exit code are not modelled.
- The startup check of the command-line URL and of `DIRECTUS_AUTH_TOKEN` is not modelled. It exits before any request.
- `scripts/download-collections.js` and `scripts/download-flows.js` are not part of this model.
- Asynchrony is not modelled. Every request is awaited before the next one, so the scripts run sequentially and the log order is program order.
- The JavaScript call stack is the `depth` parameter of `Sequenced` and the `stackDepth` of `FlowUploader`. The engine's real frame limit is not modelled.
- The push guard `includes(operation)` compares object identity. The model compares ids. The map holds one object per id, so the two agree on every operation addOperation pushes.
- In-place mutation of parsed records is modelled by returning the changed value. This covers `delete` of `operations`, `user_created` and `meta.id`, and the `operation.flow` assignment. The one aliasing that matters, `createCollection` stripping the same field objects that the field filter later reads, is modelled by `Stripped` and proved harmless by `StripBeforeFilterPostsTheSame`. No other aliasing between records is modelled.
- A `fields` or `relations` key that is truthy but not an array is not modelled. The script would throw a TypeError. In the model both keys are `None` or a sequence.
- A relations payload whose `data` is not an array is not modelled: the script's `for…of` would throw.
- An absent `related_collection` and a null one both compare as `None`. In JavaScript, `undefined === null` is false.
- JSON numbers are integers. The scripts never compute with them and only test their truthiness.
