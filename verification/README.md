# A verified model of the Xuandu gateway

Dafny 4.11 models of the parts of the gateway where replicas, requests and
crashes interleave, or where one representation is turned into another, with
proofs of what they are for. `dafny verify dfyconfig.toml` checks everything.

| files | models |
|---|---|
| `runtime_protocol`, `runtime_safety`, `runtime_manager` | the runtime manager: every critical section is one step of a state machine; the theorems are about all interleavings; the class performs exactly those steps |
| `reconcile`, `admin_service`, `admin_runs` | bringing published runtimes in line with the app catalog; the administrative operations, which work on the catalog and contract stores below; and why these are parts of runs of the commit protocol |
| `catalog_commit`, `catalog_store` | the epoch-fenced catalog transaction, shared by any number of replicas |
| `contract_store` | the chunked, write-once contract store |
| `thrift_ast`, `openapi_generator`, `openapi_document`, `openapi_meaning` | deriving component schemas from Thrift declarations, and which JSON values they describe |
| `json_pointer`, `schema_close`, `schema_meaning`, `schema_limits` | closing a schema over its components, why that keeps its meaning, and where exactly it does not |
| `go_path`, `string_order`, `include_graph`, `type_resolvers` | the include check, the bundle order and the two type resolvers |
| `mcp_catalog`, `mcp_edits`, `mcp_service`, `mcp_input` | the MCP catalog check, its edits, the reuse of compiled servers, and the assembly of a tool's input schema |
| `log_rotation`, `unpack` | log rotation under failures; archive acceptance |

The main results chain together: a generated document is complete
(`OpenapiDocument.Generate`), so closing its schemas never meets a missing
reference (`OpenapiDocument.GoodCloses`), the closed schema accepts the same
values (`OpenapiDocument.GeneratedResultsKeepMeaning`), and these are exactly
the values that the Thrift declarations stand for
(`OpenapiMeaning.ClosedResultMeans`, `OpenapiMeaning.ClosedBodyMeans`). A commit goes through
only on the catalog its sender read (`CatalogCommit.Serialisable`). Its sender
had its contract from its own upload or from a read of the store, so every
record names a contract that is complete, has the digest and passes the ZIP
checks (`CatalogCommit.RecordsCanBeRebuilt`). The operations of
`AdminService` publish through the contract that `RuntimeSafety.PublishIsSummary`
proves of every run of the runtime manager.

How effects are modelled: a mutex is a phase of a state machine; clocks,
randomness, the network and the outcome of calls into libraries are parameters,
so a theorem holds whatever they answer; error texts are dropped (`Err` carries
nothing). Consul is an atomic key-value store with one strictly increasing
index, in which writing the value already there changes nothing and a request
may take effect after its sender gave up. SHA-256, base64url, `NormalizeDomain`,
URL parsing and the router are functions about which at most the stated
properties are assumed. The URL of an app is never stored, so records have none.

Predicates that specification and code share are spelled out once more, field by
field and with their numbers, by lemmas whose names end in `Means`; Go's
`path.Clean` is determined by `GoPath.CleanRewrites` and `GoPath.CleanStops`. So
no statement rests on a definition that nothing else pins down.

## Where the code does less than one might expect

Each point comes with the exact condition under which the expectation holds, in
the setting named.

- The two type resolvers agree through an include, in every archive whose other
  includes are harmless and for every name with at most one dot, exactly when
  the include goes by one name in both, or the extractor's name for it has a dot
  (`TypeResolvers.IncludeExact`). Every other include, all of them empty or
  written with a trailing slash, separates them in any file
  (`TypeResolvers.HarmfulParts`); the archive passes the include check exactly
  when the include stays under `idl/` and leads to another file
  (`TypeResolvers.TrailingSlashDisagrees` gives such archives).
- On a name without slashes they agree, in every archive of harmless includes,
  exactly when it has at most one dot, or more than the extractor follows
  (`TypeResolvers.NameExact`).
- A closed reference means what the source says, whatever the components,
  exactly when the part after the prefix is one well-formed token or cannot be
  read at all (`SchemaLimits.ReferenceExact`).
- A keyword beside `$ref` that holds no schema of its own is harmless exactly
  when it is left out or can never reject (`SchemaLimits.SiblingExact`).
- In input mode `not`, and `oneOf` with an alternative that accepts anything,
  over keywords that look at the value alone let everything through that the
  service may accept exactly when no dropped assertion is among them
  (`SchemaLimits.NotExact`, `SchemaLimits.OneOfExact`). For all other schemas
  the conditions of `SchemaMeaning.InputMeaningWidened` and of
  `SchemaLimits.NothingDroppedKeepsMeaning` are sufficient. Generated documents
  meet the first (`OpenapiDocument.ComponentsAreGood`,
  `OpenapiDocument.OperationsAreGood`), so none of these schemas reaches
  `closeSchema` today.
- An update that changes nothing reports success; the runtime it leaves in place
  is the stored configuration exactly when the refresh found it current or could
  rebuild it (`AdminService.NothingToDoIsCurrent`, with the opposite case in
  `AdminService.NothingToDoMayBeStale`).
- A log file asked to keep no backup keeps one
  (`LogRotation.ZeroBackupsKeepOne`); with at least one the promised bound holds
  (`LogRotation.TotalWithinLimit`).

## Model

| member | source | states |
|---|---|---|
| RuntimeSafety.RunKeeps | internal/runtime/snapshot.go:54-179 | every state of every interleaving of Acquire, the parts of Release, Publish and Close satisfies the invariant: exact counts, exact close lists, exact indexes |
| RuntimeSafety.RefsCountHolders | internal/runtime/snapshot.go:60-77 | `refs` of a runtime is the number of leases that have not yet done their decrement and whose snapshot contains it |
| RuntimeSafety.LeasedRuntimeIsOpen | internal/runtime/snapshot.go:67-81 | a runtime reachable from a held lease was never closed nor put on a close list |
| RuntimeSafety.ChosenOnce | internal/runtime/snapshot.go:72-81 | Publish, Release and Close together choose a runtime for closing at most once even without `closeOnce`, and have chosen it exactly when it is out of service and unheld |
| RuntimeSafety.DrainedOnce | internal/runtime/snapshot.go:82-87 | `drained` is closed at most once, and exactly when the manager is shut down with no lease outstanding |
| RuntimeSafety.CloseReturnsClean | internal/runtime/snapshot.go:150-179 | when `Close` returns nil no lease is active and every runtime ever published has been closed once |
| RuntimeSafety.SwapOnSnapshotRead | internal/runtime/snapshot.go:96-135 | between its two sections Publish's snapshot stays current and shutdown is impossible, so after a successful `persist` the swap always happens |
| RuntimeSafety.SwapIsIsolated | internal/runtime/snapshot.go:103-135 | the swap advances the version by one, binds the name to `next` and leaves every other app its very runtime |
| RuntimeSafety.RefusedOnlyForItself | internal/runtime/snapshot.go:113-128 | a candidate is refused exactly when it has no domain or the router refuses its own routes, although every runtime is examined |
| RuntimeSafety.PublishIsSummary | internal/runtime/snapshot.go:93-147 | whatever other threads do meanwhile, one whole Publish is refused after shutdown, for a missing domain or for routes that the router refuses, changes nothing then or when `persist` fails, and otherwise binds one name and advances the version by one |
| RuntimeSafety.OnlyRoutableIsPublished | internal/runtime/snapshot.go:113-128 | a publication without a domain, with routes that the router refuses, or after shutdown leaves the snapshot alone, and one that changes it binds just that name |
| RuntimeSafety.AllPublishedAreRoutable | internal/runtime/snapshot.go:113-142 | in every state of every run, all runtimes of the current snapshot and of every leased one have a domain and a routable table |
| RuntimeSafety.OnlySwapsPublish | internal/runtime/snapshot.go:134-135 | between two publications nothing changes what is published, and shutdown is final |
| RuntimeSafety.IndexesAgree | internal/runtime/snapshot.go:23-32 | `HasApp` and the route tables of a snapshot in use say what its runtimes say |
| RuntimeSafety.RunVersion | internal/runtime/snapshot.go:134-135 | a step changes the current snapshot only by advancing its version by one |
| RuntimeSafety.VersionsGrow | internal/runtime/snapshot.go:135 | versions never go back and one version names one snapshot for ever |
| RuntimeManager.Manager.Acquire | internal/runtime/snapshot.go:54-66 | nil after shutdown; otherwise pins the runtimes of the current snapshot exactly as the protocol step does |
| RuntimeManager.Manager.ReleaseRefs | internal/runtime/snapshot.go:70-78 | the first section of Release is the protocol step, and the close list is exactly the runtimes whose last reference it dropped |
| RuntimeManager.Manager.ReleaseCloses | internal/runtime/snapshot.go:79-81 | one close of a releasing thread is the protocol step |
| RuntimeManager.Manager.ReleaseActive | internal/runtime/snapshot.go:82-87 | the last section of Release is the protocol step |
| RuntimeManager.Manager.PublishBegin | internal/runtime/snapshot.go:96-128 | reading, validating and building the candidate snapshot is the protocol step; it succeeds only while open and for a candidate with a domain and routable routes, and the indexes are those of the candidate's runtimes |
| RuntimeManager.Manager.PublishAbort | internal/runtime/snapshot.go:129-133 | a failed `persist` changes nothing |
| RuntimeManager.Manager.PublishSwap | internal/runtime/snapshot.go:134-142 | the second section of Publish is the protocol step, including who must be closed now |
| RuntimeManager.Manager.PublisherCloses | internal/runtime/snapshot.go:143-145 | a close made while owning the publication mutex is the protocol step |
| RuntimeManager.Manager.Shutdown | internal/runtime/snapshot.go:151-172 | the section of Close is the protocol step; a second call changes nothing |
| RuntimeManager.ServiceRuntime.Close | internal/runtime/runtime.go:33-40 | however often it is called, the client, if any, is closed by the first call alone, and every call returns what that one said |
| RuntimeManager.BuildIndexes | internal/runtime/snapshot.go:113-128 | validation succeeds exactly when every runtime has a domain and a routable table, and then yields the recomputed indexes |
| Reconcile.Service.Publish | internal/runtime/snapshot.go:93-149 | the publication that `RuntimeSafety.PublishIsSummary` proves of the manager, which may be shut down before it; only a runtime never published nor closed before may be published, and it counts as published from then on |
| Reconcile.Service.Discard | internal/admin/service.go:388-394 | a candidate is closed by its builder at most once, and only if it was not published |
| Reconcile.Service.Revoke | internal/admin/service.go:366-371 | the first loop removes exactly the bindings that lost their entitlement, except those whose turn came after a shutdown; each snapshot on the way only removes |
| Reconcile.Service.BringUp | internal/admin/service.go:372-396 | one round of the second loop changes only its own app: removed, kept, renewed with the exact record, or kept after a failure or a shutdown; a failure is reported as degraded (unconfigured for a zip app without a domain) with the revision that still runs, a renewal as ready, a disabled app as disabled; what it built is published or closed |
| Reconcile.Service.BringUpAll | internal/admin/service.go:372-396 | the second loop settles the apps one by one, a shutdown between two rounds included, and never publishes a snapshot that binds what is not entitled |
| Reconcile.Service.DropUnwanted | internal/admin/service.go:397-401 | the third loop only removes, leaves wanted names alone, and leaves no other while the manager is open |
| Reconcile.Service.ReconcileLocked | internal/admin/service.go:357-410 | the published map and the status map after a pass, name by name, with the manager shut down before any of its publications; in an open manager every app has the outcome and status of `PassOutcome` and no other name is left; without shutdown during the first loop every later snapshot binds only enabled apps of the catalog under their domain; every candidate built was published or closed, not both; nothing happens while stopping |
| Reconcile.PassOutcome | internal/admin/service.go:372-396 | after an undisturbed pass each app is served as recorded and ready, kept as it was and reported as failed, absent and reported as failed with no current revision, or disabled: which of these depends on its record, the earlier runtime and whether it can be built |
| AdminService.UnservedIsNotReady | internal/admin/service.go:411-425 | an enabled app with a domain and no runtime after such a pass keeps the gateway from being ready |
| AdminService.PassIsSafe | internal/admin/service.go:366-401 | after a pass every binding is an enabled app's exact configuration under its domain, or the untouched earlier runtime of an app whose rebuild failed, or one whose turn came after shutdown |
| AdminService.PassForgetsHistory | internal/admin/service.go:366-401 | when every enabled app can be built the published names and configurations are those of the catalog, whatever was published before |
| AdminService.ReplicasAgree | internal/admin/service.go:357-410 | so two replicas with the same catalog publish the same configurations |
| AdminService.SecondPassKeepsAll | internal/admin/service.go:381-383 | and a second pass keeps every runtime object |
| AdminService.Refresh | internal/admin/service.go:445-462 | refresh succeeds exactly when the catalog can be read and, after a pass over it, every enabled zip app with a domain except the one being replaced is served as the store has it; the epoch is that of the same reading |
| AdminService.RefreshSucceeds | internal/admin/service.go:455-460 | which is so whenever everything can be rebuilt |
| AdminService.CreateApp | internal/admin/service.go:130-181 | on success the record went through on the catalog the refresh had read, the published map has changed by its runtime alone (or nothing, for a disabled app) and serves the whole catalog it left; on error the published map is the refreshed one; a record is handed to the store only field by field as requested, under its normalised domain, with its contract completely stored under its digest; every candidate was published or closed |
| AdminService.UpdateApp | internal/admin/service.go:194-290 | the same for an update that reports a change: each field is the requested one or else the stored one, the contract a new upload or the stored one read back; an update that reports none was asked for nothing that the stored record does not have, publishes nothing and only finds some runtime in place |
| AdminService.Install | internal/admin/service.go:91-101 | build, store, write and publish: the write is attempted only when the contract is complete, and the candidate ends published or closed |
| AdminService.Adopt | internal/admin/service.go:163-179 | publication with the catalog write as `persist` and the deferred close: success exactly serves the catalog the write left, failure leaves the published map as it was |
| AdminService.WriteTakes | internal/admin/service.go:153-179 | a write that passes the fence met the catalog that was read, whatever happened to the store in between |
| AdminService.NothingToDoIsCurrent | internal/admin/service.go:252-259 | the runtime left in place by such an update is the stored configuration exactly when the refresh found it current or could rebuild it |
| AdminService.NothingToDoMayBeStale | internal/admin/service.go:252-259 | for any record that is enabled and any outdated runtime of it under the same domain, the update reports success and the runtime stays outdated |
| AdminService.DeleteApp | internal/admin/service.go:291-310 | a deletion succeeds exactly when the record is found and decodes, the manager is open, nobody commits between the reading of the epoch and the transaction, and the record still has the index found; then just that app, its record and its status go; what is deleted is the very record that was looked up |
| AdminRuns.BeginsAsRun | internal/admin/service.go:130-162 | what a creation or update reports makes its refresh, its `Get` and the beginning of its upload or read steps of one replica in the commit protocol, with everybody else at work in between |
| AdminRuns.EndsAsRun | internal/admin/service.go:163-181 | and its transaction and answer too, with the very store and runtimes that the call leaves, so that what holds of runs holds of calls |
| AdminRuns.DeletionIsRun | internal/admin/service.go:291-310 | the same for a deletion |
| AdminRuns.OthersLeaveAlone | internal/admin/service.go:130-310 | whatever steps others make, a waiting call finds its own state, its request and any answer as they were |
| AdminService.IsReady | internal/admin/service.go:411-425 | ready exactly when loaded, not stopping and no degraded app is without a runtime |
| CatalogCommit.MarkerAdvances | internal/metadata/consul_store.go:148-163 | the value `epoch+1` always differs from the stored one, so every committed write advances the marker past every index seen before |
| CatalogCommit.RunKeeps | internal/metadata/consul_store.go:89-174 | in every run of any number of replicas, with lost answers, late requests, crashes and any uploads and reads of contracts in between: while the marker shows the epoch somebody read, the catalog is what they read, and every zip record or request names a readable contract |
| CatalogCommit.Serialisable | internal/metadata/consul_store.go:148-163 | a transaction goes through only on the catalog its sender read, and each commit starts from what the one before it left |
| CatalogCommit.StaleReadersAreRefused | internal/metadata/consul_store.go:149-161 | after a commit every other request still on its way is out of date |
| CatalogCommit.DeletionTakesWhatItSaw | internal/metadata/consul_store.go:155-174 | in every run, a deletion that commits takes away exactly the record its sender had looked up, whatever others wrote in between, and leaves all other records alone |
| CatalogCommit.CommitIsServed | internal/admin/service.go:153-179 | when a Create or Update commits, its sender serves every other enabled zip app with a domain as stored, and with the new runtime swapped in it serves the whole catalog |
| CatalogCommit.RecordsCanBeRebuilt | internal/admin/service.go:91-101 | every zip record in every state of every run names a revision under which an archive with that digest that passes the ZIP checks is completely stored, then and ever after |
| CatalogCommit.ObtainedIsKept | internal/admin/service.go:237-248 | an upload that returned nil, or a read that returned the archive, is all a sender needs for that, while other replicas upload anything |
| CatalogCommit.ReadRecord | internal/admin/service.go:91-96 | reading the contract of any stored zip record, with other replicas at work, succeeds whenever every answer arrives |
| CatalogCommit.RunLater | internal/metadata/consul_store.go:148-163 | between any two states of a run the catalog is unchanged or the marker has moved past every index of the earlier one |
| CatalogStore.ConsulCatalog.Transact | internal/metadata/consul_store.go:148-163 | three operations or none: succeeds exactly when the marker and the record index match, for a write and for a deletion, and the new store is the transacted one |
| CatalogStore.ConsulCatalog.CompareAndSwap | internal/metadata/consul_store.go:131-147 | refuses invalid records and revisions that are not 64 hexadecimal digits, otherwise transacts |
| CatalogStore.ConsulCatalog.Delete | internal/metadata/consul_store.go:164-174 | two requests with other replicas at work in between: succeeds exactly when every record decodes at the reading of the epoch, nobody has committed from then until the transaction, and the record's index matches |
| CatalogStore.ConsulCatalog.Read | internal/metadata/consul_store.go:89-117 | every record once, ascending, with both indexes and the marker's index as epoch; fails exactly when a record does not decode |
| CatalogStore.ConsulCatalog.Get | internal/metadata/consul_store.go:71-88 | the record under a name with its index, nothing, or an error exactly for a bad name or a record that does not decode |
| CatalogStore.ConvergedIsServing | internal/admin/service.go:455-460 | the convergence check over the list read is the condition the commit protocol needs |
| ContractStore.ConsulStore.PutContract | internal/metadata/contracts.go:26-41 | with other writers, of the same contract too, at work before and inside each operation: success means the archive, at most 32 MiB, is completely stored under its digest of 64 hexadecimal digits; nothing is ever overwritten and every marker stays truthful; repeating a finished upload succeeds |
| ContractStore.ConsulStore.PutImmutable | internal/metadata/contracts.go:42-55 | nothing is overwritten; success means the key holds these bytes from now on, and an answered call succeeds exactly when no other bytes are there; an error may hide the write |
| ContractStore.ConsulStore.GetContract | internal/metadata/contracts.go:56-98 | whatever it returns is completely stored under that digest and passes the checks; of a stored archive it returns the identical bytes, for every size and remainder; the read loop ends |
| ContractStore.KeptMeans | internal/metadata/contracts.go:24-98 | a kept contract, in numbers: 64 hexadecimal digits that are the hash of an archive of at most 32 MiB that unpacks, its pieces of 256 KiB each under its number, and its length in the marker |
| ContractStore.RunKeeps | internal/metadata/contracts.go:24-98 | for any number of uploads and reads stopping anywhere, every present marker has its complete archive, and every read has gathered what the chunks say |
| ContractStore.MarkerTellsTheTruth | internal/metadata/contracts.go:34-40 | from the creation of a marker on, the archive stored is exactly that of the call that created it |
| ContractStore.MarkerImpliesStored | internal/metadata/contracts.go:24-40 | a marker once seen belongs to a complete archive of that digest for ever; a partial upload has none |
| ContractStore.FinishedIsStored | internal/metadata/contracts.go:26-41 | once an upload has returned nil its archive, and no other, is what is stored, for ever |
| ContractStore.AnsweredIsKept | internal/metadata/contracts.go:56-98 | what a read has answered is stored under its digest for ever |
| ContractStore.KeptIsReadable | internal/metadata/contracts.go:56-98 | a read of a stored contract is never refused half-way: it can always go on, and what it has is a beginning of the archive |
| ContractStore.RivalsMayFinish | internal/metadata/contracts.go:26-41 | the interference that `PutContract` and `GetContract` allow includes another replica that finishes any upload, the same one included |
| ContractStore.PutIsMove | internal/metadata/contracts.go:42-55 | one `putImmutable`, whatever becomes of its messages, is one move of the upload in the protocol, and its success brings the upload one part further |
| ContractStore.StoredUnique | internal/metadata/contracts.go:71-89 | the stored keys determine the archive, without any property of the hash |
| OpenapiGenerator.Generator.Schema | internal/openapi/generate.go:73-140 | returns the schema of the type, adds exactly components of declarations that it needs, records an error exactly when one of them has none, and ends on recursive types |
| OpenapiGenerator.Generator.Component | internal/openapi/generate.go:99-140 | the placeholder discipline: on return the component is there, filled in unless an error is recorded, and earlier entries are untouched |
| OpenapiGenerator.Generator.Fields | internal/openapi/generate.go:151-166 | the object schema of a field list: properties, required names in order |
| OpenapiGenerator.Generator.Field | internal/openapi/generate.go:141-150 | the schema of one field, with the text form of 64-bit integers and the description wrapper |
| OpenapiGenerator.KeyIsInjective | internal/openapi/generate.go:70-72 | a schema key determines the file and the name |
| OpenapiDocument.Generate | internal/openapi/generate.go:201-327 | a document is returned exactly when a complete one exists: all operations described, every reference leading to the filled-in component of a declaration |
| OpenapiDocument.Describe | internal/openapi/generate.go:245-313 | the schemas of one operation, with everything they refer to present |
| OpenapiDocument.ReferenceNamesItsDeclaration | internal/openapi/generate.go:99-137 | a reference leads to the component of the declaration it names, whatever order types were met in |
| OpenapiDocument.ComponentsAreGood | internal/openapi/generate.go:73-166 | every component of a generated document can be closed and stays within the fragment on which closing keeps meaning |
| OpenapiDocument.OperationsAreGood | internal/openapi/generate.go:245-313 | and so do all parameters, bodies and results |
| OpenapiDocument.GoodCloses | internal/mcp/compiler.go:209-228 | closing such a schema never meets a missing or foreign reference |
| OpenapiDocument.GeneratedResultsKeepMeaning | internal/mcp/compiler.go:157-160 | the closed result schema of a generated operation accepts exactly what the generated document accepts |
| OpenapiDocument.GeneratedBodiesAreAccepted | internal/mcp/compiler.go:145-149 | the closed body schema accepts whatever the generated document accepts |
| OpenapiMeaning.SchemaMeans | internal/openapi/generate.go:73-140 | the generated schema of a type accepts exactly the JSON values of that type: booleans, integers, doubles, texts, lists, sets without repetition, maps, and through references enums, typedefs and records, recursive ones too |
| OpenapiMeaning.EntryMeans | internal/openapi/generate.go:99-166 | the component of a declaration accepts exactly its values: for a record, values of the last field of each name, and all required names |
| OpenapiMeaning.FieldMeans | internal/openapi/generate.go:141-150 | a field accepts the values of its type, or a text of digits where a 64-bit integer is asked for as text |
| OpenapiMeaning.ResultMeans | internal/openapi/generate.go:245-313 | a result schema accepts exactly the envelopes: code, message, and data of the result type |
| OpenapiMeaning.BodyMeans | internal/openapi/generate.go:245-313 | a body is described exactly when the request has a field without a place of its own, and accepts exactly the records of those fields |
| OpenapiMeaning.ParametersMean | internal/openapi/generate.go:245-313 | one parameter schema per field with a place of its own, in order, each accepting exactly the values of that field |
| OpenapiMeaning.ClosedResultMeans | internal/mcp/compiler.go:157-160 | from declarations to answers: the closed result schema accepts exactly the envelopes of the method |
| OpenapiMeaning.ClosedBodyMeans | internal/mcp/compiler.go:145-149 | the closed body schema accepts exactly the records of the body fields, up to presence of required fields, enum membership and the digits of text integers, which are left to the service |
| JsonPointer.CodeNameIsPointer | internal/mcp/compiler.go:214-215 | the two replacements decode a reference as RFC 6901, section 4, does exactly when it is a single well-formed token |
| SchemaClose.Closer.Walk | internal/mcp/compiler.go:198-285 | a walk returns the closed schema, adds definitions only for sound reachable components, visits all they refer to, and fails only if something reachable cannot be closed; it ends because unvisited components, then the schema, shrink |
| SchemaClose.Closer.WalkIn | internal/mcp/compiler.go:200-277 | the keyword switch |
| SchemaClose.Closer.WalkRef | internal/mcp/compiler.go:209-228 | a reference is rewritten, its component marked, walked and stored once |
| SchemaClose.CloseSchema | internal/mcp/compiler.go:194-298 | succeeds exactly when root and reachable components can be closed and the size limit holds, and then `$defs` has exactly the reachable components |
| SchemaMeaning.OutputMeaningKept | internal/mcp/compiler.go:194-298 | output mode: a value is valid against the closed document exactly when it is against the source with its components, for every number of references followed and every meaning of the opaque keywords |
| SchemaMeaning.InputMeaningWidened | internal/mcp/compiler.go:204-207 | input mode: everything the source accepts is still accepted |
| SchemaMeaning.InputMeaningExact | internal/mcp/compiler.go:204-207 | input mode, exactly: the closed document accepts what the source accepts when the twelve dropped assertions are read as true, below `not` and `oneOf` too |
| SchemaMeaning.ReferencesResolve | internal/mcp/compiler.go:214-227 | the source reference and the rewritten one resolve to the component and to its closed form |
| SchemaLimits.ReferenceExact | internal/mcp/compiler.go:214-220 | a reference keeps its meaning, whatever the components, exactly when it is a single token or unreadable: otherwise it walks into another component in the source and dangles when closed |
| SchemaLimits.SiblingExact | internal/mcp/compiler.go:200-228 | a keyword beside `$ref`, ignored by OpenAPI 3.0.3 section 4.7.23, keeps the meaning, whatever the components, exactly when it is left out, silent, or a type list that admits everything |
| SchemaLimits.NotExact | internal/mcp/compiler.go:204-207 | input mode, below `not`: nothing that the source accepts is rejected exactly when no dropped assertion stands there |
| SchemaLimits.OneOfExact | internal/mcp/compiler.go:204-207 | the same for an alternative of `oneOf` beside one that accepts anything |
| SchemaLimits.NothingDroppedKeepsMeaning | internal/mcp/compiler.go:204-207 | a schema that reaches no dropped assertion gives the same document in both modes, so input mode keeps its meaning both ways, below `not` and `oneOf` too |
| McpInput.Collect | internal/mcp/compiler.go:97-113 | fails exactly on an unsupported place or style; keeps the parameters the caller supplies and groups them exactly when two share a name |
| McpInput.CollectMeans | internal/mcp/compiler.go:97-113 | what that means of the list: hidden headers are left out, all others must stand in path, query or header with style empty, `form` or `simple` |
| McpInput.Assemble | internal/mcp/compiler.go:126-144 | the last parameter of every place and name is found under its path, the body beside the groups or as the whole; nothing else is in the root |
| McpInput.ExactlyMeans | internal/mcp/compiler.go:126-144 | the assembled object admits exactly the objects with no other properties, each valid under its own schema |
| McpInput.AssembledInputCloses | internal/mcp/compiler.go:145-149 | the input schema assembled from a generated operation can be closed, and accepts whatever the generated document accepts |
| McpInput.AssembledInputMeans | internal/mcp/compiler.go:145-149 | and exactly what the assembled schema accepts once the assertions left to the service are read as true |
| IncludeGraph.Checker.Check | internal/idl/loader.go:34-58 | the depth-first search ends; success leaves the file done, failure means the include graph is not sound |
| IncludeGraph.RankedIsSound | internal/idl/loader.go:32-58 | when every file is done all targets exist under `idl/` and there is no cycle |
| IncludeGraph.LoadArchive | internal/idl/loader.go:20-83 | accepted exactly when all files parse, the include graph is closed and acyclic, routes can be extracted and there is one; bundles and routes follow the only ascending listing of the files, whatever the iteration order |
| IncludeGraph.AcceptedMeans | internal/idl/loader.go:20-83 | these archives, spelled out: every file parses, the includes are sound, the routes of every file with a service can be extracted, and one of these files has a route |
| IncludeGraph.RoutesMean | internal/idl/loader.go:60-83 | each file with a service brings all its routes, after those of the files before it, and no others come in |
| TypeResolvers.ResolversAgree | internal/openapi/generate.go:167-187 | for names with at most one dot and harmless includes, whatever struct the route extractor accepts within its depth, the generator reaches the same declaration in the same file |
| TypeResolvers.IncludeExact | internal/openapi/generate.go:60-69 | the text of an include decides whether the resolvers agree through it: exactly when both read one name from it, or the extractor reads one with a dot |
| TypeResolvers.HarmfulParts | internal/idl/routes.go:92-120 | for any other include, in any file, the extractor serves a method whose request the generator cannot find; the archive passes the include check exactly when the include stays under `idl/` and leads to another file |
| TypeResolvers.NameExact | internal/idl/routes.go:92-120 | a name is resolved alike, whatever the archive, exactly when it has at most one dot or more than the depth bound |
| TypeResolvers.StemsCoincide | internal/openapi/generate.go:60-69 | the two readings of an include's name coincide exactly when the include does not end in a slash or its base has no extension |
| TypeResolvers.TrailingSlashDisagrees | internal/idl/routes.go:92-120 | every file written with a trailing slash gives an archive that passes the include check and separates the resolvers |
| McpCatalog.Validate | internal/mcp/model.go:163-226 | accepts exactly the catalogs within the limits, with unique ids, unique endpoint paths, unique tool names per server, and grants only for tools of their own server |
| McpEdits.ValidMeans | internal/mcp/model.go:163-226 | these catalogs, spelled out: at most 50 servers, 500 tools and 100 keys, one to ten endpoints, tool names of a letter and up to 63 letters, digits, `_` and `-`, ids apart across all three lists |
| McpCatalog.CheckServers | internal/mcp/model.go:172-194 | the first loop: ids, headers and endpoint paths over all servers |
| McpCatalog.CheckTools | internal/mcp/model.go:195-206 | the second loop: ids, servers and names of tools |
| McpCatalog.CheckGrants | internal/mcp/model.go:212-223 | the grant loop: one grant per existing server, listing only its own tools |
| McpCatalog.JoinedKeyIsInjective | internal/mcp/model.go:200-204 | the joined key determines server and tool name, because tool names have no colon |
| McpEdits.Edit | internal/mcp/service.go:288-404 | succeeds exactly when the edit names what exists (`Accepts`); what it gives is described kind by kind in the next rows |
| McpEdits.RefusedExactly | internal/mcp/service.go:288-404 | refused exactly for an unknown kind, an id that is not there (a creation gives none), or an access list with an unknown or repeated key |
| McpEdits.UpsertTouchesOne | internal/mcp/service.go:318-404 | creating or updating a server, tool or key adds or replaces that one entry, with the fresh id or its own, and leaves every other entry and list alone; a key's secret changes on creation and rotation only |
| McpEdits.DeletionRemovesExactly | internal/mcp/service.go:318-404 | deleting takes away the named entry and exactly what hangs on it: a server's tools and grants, a tool's mentions in grants |
| McpEdits.DeletionStaysValid | internal/mcp/service.go:318-398 | deleting a server, tool or key of a valid catalog gives a valid catalog |
| McpEdits.KeyUpdateKeepsSecret | internal/mcp/service.go:371-390 | updating a key changes that key alone, and its stored secret only on rotation |
| McpEdits.AccessTouchesOneServer | internal/mcp/service.go:289-316 | an access edit leaves every other server's grants alone and gives each key exactly the listed tools on this one |
| McpEdits.AccessIsValid | internal/mcp/service.go:289-316 | from a valid catalog the edit is valid exactly when it grants tools of this server only |
| McpService.ReuseIsTransparent | internal/mcp/service.go:105-111 | a compiled server taken over equals what a fresh build produces with its contract readable |
| McpService.CacheIsTransparent | internal/mcp/service.go:82-188 | with contracts readable, a build with reuse equals one without |
| McpService.PendingNeverReuses | internal/mcp/service.go:417-419 | a pending change, at version 0, takes nothing over |
| McpService.KeySeesItsGrants | internal/mcp/service.go:158-178 | on a compiled server of a valid catalog an enabled key with a grant there sees exactly the granted tools, every other key nothing |
| McpService.AllToolsBound | internal/mcp/service.go:131-154 | unless a tool fails, exactly the tools of the server are bound, within the count and size limits |
| McpService.WorkedMeans | internal/mcp/service.go:131-154 | each tool of a server is bound to what the compiler makes of it with the key header of that server, and compiling fails exactly when there are more than 100 tools, one does not compile, or their definitions exceed 4 MiB |
| McpService.BuiltIsTold | internal/mcp/service.go:82-188 | so it is for every server of a built snapshot, taken over or new: disabled and empty, failed with no view, or bound as above with each key seeing what it was granted |
| McpService.Service.Build | internal/mcp/service.go:82-188 | the snapshot, server by server, with every path routed to its server |
| McpService.Service.CompileServer | internal/mcp/service.go:90-187 | one server: disabled, not ready, taken over, failed, or compiled with its views; a document generated for the app earlier in the build serves again |
| McpService.Service.CompileTools | internal/mcp/service.go:131-154 | the tool loop: bound with the server's own key header, failing exactly beyond 100 tools, 4 MiB or on a tool that does not compile |
| McpService.Service.CompileViews | internal/mcp/service.go:158-178 | which tools each enabled key sees |
| McpService.Service.Refresh | internal/mcp/service.go:58-81 | publishes a valid catalog built on the pinned runtimes, with exactly its servers and their endpoint paths, or leaves the current one |
| McpService.Service.Mutate | internal/mcp/service.go:275-446 | only a valid edit of the version named, whose server compiles from scratch, is handed to the store; on success the stored catalog is served and the id and new version returned, after a failed reread nothing is served, otherwise nothing changes |
| LogRotation.LogFile.Write | internal/logging/file.go:63-86 | with any failure of any operation: what is accepted is the reported prefix, the log stays a suffix of the accepted bytes, only the oldest backup is given up, and the limit is kept |
| LogRotation.LogFile.Rotate | internal/logging/file.go:47-62 | success moves every file one slot up over an empty current file; failure loses at most the oldest backup and leaves the file to be reopened |
| LogRotation.RotatedMeans | internal/logging/file.go:47-62 | a rotation slot by slot: each file moves up one, the current one is empty, nothing beyond the oldest is touched |
| LogRotation.LogFile.Shift | internal/logging/file.go:53-60 | the descending renames |
| LogRotation.LogFile.Reopen | internal/logging/file.go:34-46 | opening keeps the log; a failed open changes nothing |
| LogRotation.TotalWithinLimit | internal/logging/file.go:13-31 | with at least one backup the files together stay within `(backups+1)*limit` |
| LogRotation.ZeroBackupsKeepOne | internal/logging/file.go:53-60 | with none, and any positive limit, two writes exceed it |
| Unpack.Unpack | internal/archiveidl/fetcher.go:76-138 | accepts exactly the archives of good entries with distinct names, within the limits, no file being an ancestor of another; the result is their files |
| Unpack.AcceptableMeans | internal/archiveidl/fetcher.go:76-138 | these archives, spelled out: at most 1024 entries and 64 MiB, a file among them, no file below another |
| Unpack.GoodEntryMeans | internal/archiveidl/fetcher.go:91-124 | a good entry, spelled out on the elements of its name: `idl` first, none empty, `.` or `..`; a file ends in `.thrift`, has at most 8 MiB and the size it declares |
| Unpack.CheckEntry | internal/archiveidl/fetcher.go:91-124 | the tests of one entry; the unsigned subtraction never wraps |
| Unpack.ReadEntries | internal/archiveidl/fetcher.go:90-126 | the entry loop, its running total and its file map |
| Unpack.HasAncestor | internal/archiveidl/fetcher.go:128-132 | the walk over parents ends and finds exactly the proper ancestors |
| Unpack.EveryFileIsGood | internal/archiveidl/fetcher.go:93-122 | every name returned is a clean `idl/….thrift` path and every file at most 8 MiB |
| Unpack.TotalIsSum | internal/archiveidl/fetcher.go:112-125 | the contents returned add up to the running total |

## Left out

- AdminService.CreateApp: the status texts and route counts of `record`, and the two-minute operation timeout, are not modelled; a transaction that Consul executes only after the call gave up is an action of the protocol (`CatalogCommit.Step`), not of the method.
- AdminRuns.EndsAsRun: that the call's own upload is finished in the protocol by the time it writes is a condition here; `ContractStore.PutIsMove` gives it put by put.
- AdminService.Refresh: whether a rebuild works is an oracle per record; that the stored contract can be read for it is `CatalogCommit.ReadRecord`.
- Reconcile.Service.Publish: the manager is seen from its callers' side, which `RuntimeSafety.PublishIsSummary` justifies; that a replaced runtime is closed once is proved of the protocol only (`RuntimeSafety.ChosenOnce`).
- Reconcile.Service.ReconcileLocked: takes a list that names no app twice, which is what the catalog gives (`CatalogStore.ListNames`).
- CatalogCommit.RunKeeps: indexes are unbounded, so the wrap-around of a 64-bit `epoch+1` is not modelled; a refresh is one step, since only the catalog as read and the runtimes after it matter to the protocol.
- SchemaMeaning.OutputMeaningKept: applicator keywords that the walk does not enter (`if`, `contains`, `prefixItems` and the like) are opaque assertions; percent-encoded fragments are not decoded.
- SchemaMeaning.OutputMeaningKept: an assertion has one meaning in source and closed document, so the boolean `exclusiveMinimum` and `exclusiveMaximum` of OpenAPI 3.0.3 are not told from the numbers of JSON Schema; no generated document has them.
- SchemaLimits.SiblingExact: keywords beside `$ref` that hold schemas themselves (`properties`, `allOf` and the like) are outside the equivalence.
- ContractStore.ConsulStore.PutContract: the key text (prefix, six-digit chunk number) is a structured key; at most 128 chunks exist, so the numbers never outgrow the format.
- RuntimeManager.Manager.PublishSwap: the 64-bit wrap-around of `Version` is not modelled, and `next` must be absent, never published before, or the runtime already under that name, as all callers ensure.
- OpenapiDocument.Generate: parameter placement, summaries, tags, headers and example texts are left out; the schemas of parameters, bodies and results are in.
- McpService.Service.Build: SDK servers and handlers are represented by the set of tools each key sees.
- `Request`, `scalarValues` and `validationValue` in `internal/mcp/compiler.go`: turning call arguments into an HTTP request.
- Route extraction beyond `isStruct`, whose verdicts are a parameter of `LoadArchive`.
- Kitex clients, the router, JSON and ZIP decoding, Thrift parsing, the MCP SDK and the JSON-schema library: calls with arbitrary outcomes.
- HTTP front ends, configuration, executor, `Tee`, directory creation and file modes: wiring, or settled by reading branches.
- Go's memory model: each mutex-protected section is atomic by construction of the state machines.
