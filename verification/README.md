# Extension Manager: transactions, extensions and what survives them

Extension Manager runs extensions, arbitrary scripts, inside database transactions. This project
models that program in Dafny and proves what holds whatever an extension does and whichever step of
the database fails. `dafny verify dfyconfig.toml` checks everything.

The program is modelled twice, and the two are tied together. Functions over values say what every
step does: `Database.World` is the committed store, one session per transaction and the history of
events, and `Transaction.Context` adds the transaction and the BucketFS client of one operation.
Classes and methods do the same on objects, in the form of the program (`Database.Db`,
`Transaction.TransactionContext`, loops, reused buffers, tagging in place), and each method ensures
that it takes exactly the step of its function. The theorems are lemmas about the functions.

- **Failures.** Every request to the database driver is answered by `Environment.replies`, an
  arbitrary function of the number of the request. A theorem for all environments holds for all
  patterns of failures of begin, execute, query, scan, close, commit and rollback. The database model
  is that of database/sql: a second finish of a transaction is an error without effect, a failed
  commit commits nothing, a rollback finishes the transaction even if it reports an error.
- **Extensions.** A callback is an arbitrary function from the answers so far to its next move
  (a call on the context, a return, a throw), so it may branch on anything it was told, catch any
  refused call and make any number of calls. Since the bound on that number is arbitrary, a statement
  about all callbacks is also a statement about every point in the middle of one.
- **Panics.** `Result` has a third case for a Go panic that no wrapper recovers: a thrown `undefined`
  or `null`, or a `null` entry in a returned list that the program dereferences. The deferred rollback
  runs on this path too.
- **Hidden definitions.** `hide` statements keep definitions out of a proof that does not need them.

| file | models |
|---|---|
| Text, Errors | strings, error chains, the error response |
| SqlFilter, Rows | the statement filter, cursors and row extraction |
| FileTree, Availability | the listing script, the two BucketFS queries, the availability filter |
| ParameterValidator | definitions, rules and the validation message |
| Database, Transaction | database/sql, the BucketFS client, the transaction context |
| Extensions, Controller, TransactionController | callbacks, the work of the operations, the nine operations |
| Registry, Loading | the cached index, loading extensions from it |
| Isolation, Atomicity, Gates, Transcripts, Operations, Discovery | the theorems across these parts |
| BasicAuth | the Authorization header |

Where code and documentation disagree, the model follows the code: the comment on `UnwrapAPIError`
promises nil when there is no API error, the code returns an internal server error; the comment on
`FindAbsolutePath` speaks of an arbitrary file, the query picks the least path.

Three promises hold only under a condition, which is proved to be exact: a Basic header gives back
user and password for users without a colon (`BasicAuth.BasicRoundTrip`), a Bearer header gives back
tokens without a space (`BasicAuth.BearerRoundTrip`), and the names of remaining instances are joined
by separators unless the first of several is empty (`Controller.ConcatIsJoin`).

## Model

| member | source | states |
|---|---|---|
| Atomicity.RunIsAtomic | pkg/extensionController/transactionController.go:142-287 | For every sequence of calls, every callback and every pattern of driver failures, the committed store is the initial one followed by the statements of exactly those mutating calls that returned no error, in call order, and no transaction is left open |
| Atomicity.ServeIsAtomic | pkg/extensionController/transactionController.go:142-287 | One call: failed and read-only calls commit nothing, a successful mutating call commits exactly the statements of its own transaction, the commit is the last event, and everything begun meanwhile is finished on every path |
| Atomicity.CommitOrder | pkg/extensionController/transaction/transactionContext.go:87-111 | A commit happens only after the BucketFS client closed without error; a close error prevents it; the deferred rollback behind a successful commit leaves the state unchanged, behind a failed one it finishes the rest |
| Atomicity.RollbackOver | pkg/extensionController/transaction/transactionContext.go:86-92 | A rollback finishes both transactions, also when closing or rolling back reports an error, and commits nothing |
| Atomicity.BucketFsNeverCommitted | pkg/extensionController/bfs/BucketFsApi.go:41-55 | In every reachable state all commits and all committed writes belong to the operations' own transactions, so nothing a BucketFS transaction created is in the store |
| Isolation.RunInside | pkg/backend/ExasolSqlClient.go:33-69 | Through every callback of any length the operation's transaction stays open and is never ended by a statement, nothing is committed, at most the one client's BucketFS transaction is open, and a client once created is kept |
| Isolation.PerformInside | pkg/extensionAPI/context/sqlClient.go:17-30 | The same for each single call a callback can make on its context |
| Isolation.CreateClientWorking | pkg/extensionController/bfs/BucketFsApi.go:41-55 | However the creation of a client ends, it leaves no transaction open but that of the returned client |
| Isolation.GetClientInside | pkg/extensionController/transaction/transactionContext.go:75-84 | At most one client per context: an existing client is returned unchanged, a new one is remembered |
| Transcripts.RunWrites | pkg/extensionAPI/context/sqlClient.go:17-30 | The transaction of an operation holds exactly the statements that, by the answers it got, the callback executed, in order |
| Transcripts.PerformWrites | pkg/backend/ExasolSqlClient.go:33-69 | An acknowledged statement was executed once, a refused or rejected one not at all |
| Transcripts.ExecuteAnswer | pkg/backend/ExasolSqlClient.go:33-44 | A statement of an extension is acknowledged and joins the transaction exactly if it is neither word between padding and the driver executes it; a refused one does not even reach the driver |
| Transcripts.QueryAnswer | pkg/backend/ExasolSqlClient.go:48-69 | A query is answered with all rows of its cursor exactly if it is neither word, the driver runs it and nothing goes wrong up to its closing |
| Transcripts.ScriptAnswer | pkg/extensionAPI/exaMetadata/ExaMetadata.go:54-73 | A script is answered with the first row of its query, or with none if there are no rows |
| Transcripts.CommitsOwn | pkg/extensionController/transactionController.go:170-184 | A successful mutating call commits what its transaction held when its work was done |
| Transcripts.InstallCommits | pkg/extensionController/controller.go:219-229 | A successful install commits the creation of the schema and then exactly what the install function executed |
| Transcripts.ThrownStatus | pkg/extensionAPI/errorHandlingExtension.go:169-190 | A thrown value with an exportable status keeps status and message, any other error has status 500, and only undefined or null escapes as a panic |
| Transcripts.BeginStatus | pkg/extensionController/transaction/transactionContext.go:27-48 | A failed begin has status 401 exactly if the text of failed authentication occurs in what the driver reported, otherwise 500 |
| Transcripts.WorkingDriverCommits | pkg/extensionController/transactionController.go:170-184 | While the driver answers, the end of an operation never changes its result |
| Operations.RunIsFaithful | pkg/extensionAPI/extensionApi.go:81-97 | A run performs exactly the actions the callback demands after the answers so far, hands it every answer, and ends with what it returns or throws |
| Operations.BeginExact | pkg/extensionController/transactionController.go:281-287 | An operation begins exactly with a configured base path and a driver that answers, and then has one open, empty transaction more and nothing else changed |
| Operations.ServeYields | pkg/extensionController/transactionController.go:142-287 | The answer of a call is what its work yields unless begin or commit fails; while the driver works only the work decides |
| Operations.DeleteYields | pkg/extensionController/controller.go:326-332 | Delete calls the function with version and instance id, in this order, and succeeds exactly if it returns; otherwise it reports what it threw, that there is no such function, or why the extension could not be loaded |
| Operations.DeleteCommits | pkg/extensionController/transactionController.go:265-279 | A successful delete commits exactly what that call executed |
| Operations.UpgradeYields | pkg/extensionController/controller.go:271-277 | Upgrade returns what the function returned, or the error of what it threw |
| Operations.UpgradeCommits | pkg/extensionController/transactionController.go:203-217 | A successful upgrade commits exactly what the function executed |
| Operations.InstancesYield | pkg/extensionController/controller.go:334-340 | The listing returns what the function returned for the version |
| Operations.DefinitionsYield | pkg/extensionController/controller.go:203-217 | The definitions are exactly those the function returned for the version, if every entry has string id and name |
| Operations.InstallYields | pkg/extensionController/controller.go:219-229 | Install creates the configured schema, calls the function with the version and succeeds exactly if both do; each failure is reported as such |
| Operations.CreateYields | pkg/extensionController/controller.go:279-316 | Create returns the instance that the add function, called with version and values, returned, exactly if schema, definitions and every value pass before; the first failure is the one reported |
| Operations.CreateCommits | pkg/extensionController/transactionController.go:240-254 | A successful create commits the schema, then what reading the definitions executed, then what the add function executed |
| Operations.CheckYields | pkg/extensionController/controller.go:244-257 | The check passes exactly if instances cannot be listed, the first listing throws status 404, or the second one returns an empty list |
| Operations.UninstallYields | pkg/extensionController/controller.go:231-242 | Uninstall calls the function with the version exactly behind a passed check, and succeeds exactly if it returns |
| Operations.UninstallCommits | pkg/extensionController/transactionController.go:186-200 | A successful uninstall commits what the listings and then the function executed |
| Operations.CheckRefuses | pkg/extensionController/controller.go:244-257 | A failed check is reported as what the listing threw, or with status 400, the number and the names of the remaining instances |
| Gates.CreateGate | pkg/extensionController/controller.go:279-316 | AddInstance is called if and only if loading, schema and definitions succeeded and for every definition the first value supplied under its id, or the empty string if there is none, satisfies its rule; otherwise the call fails, with status 400 if values are refused |
| Gates.UninstallGate | pkg/extensionController/controller.go:231-257 | Uninstall is called if and only if it exists and instances cannot be listed, the first listing fails with 404, or the second one is empty; remaining instances give status 400 |
| Gates.SchemaSharesTheFate | pkg/extensionController/controller.go:279-303 | The schema created at the start of install and create is committed with the call and undone with it |
| Gates.SuccessfulCalls | pkg/extensionController/controller.go:161-340 | A successful operation has called exactly the functions it is for, in order, and no others |
| Gates.CallCalls | pkg/extensionAPI/errorHandlingExtension.go:51-167 | A wrapper calls its function once if it exists and fails if it does not; nothing a callback does calls another function |
| Gates.DefinitionsAreTheExtensions | pkg/extensionController/controller.go:203-217 | The definitions are those the extension returned, one for one |
| Discovery.ShownIsFilter | pkg/extensionController/controller.go:71-129 | The shown extensions are exactly those whose required files are all there, each once, in registry order, with their own id, name, category, description and versions; only the set of files matters |
| Discovery.ShownGrows | pkg/extensionController/controller.go:71-129 | With more files the list only gains entries |
| Discovery.ShownByServe | pkg/extensionController/transactionController.go:142-168 | A successful listing shows that filter applied to all files in BucketFS |
| Discovery.ShownIffFilesLie | pkg/extensionController/transactionController.go:142-168 | On a tree the script serves, a successful listing shows an extension if and only if every required file lies on the tree with the required name and, unless negative, size |
| Discovery.ListingSucceeds | pkg/extensionController/transactionController.go:142-168 | While the driver works the listing succeeds exactly if the extensions can be loaded, and otherwise reports why not |
| Discovery.AvailableIffLying | pkg/extensionController/controller.go:95-129 | The listing has the required files exactly if they lie on the tree |
| Discovery.ResolveAgreesWithListing | pkg/extensionAPI/context/bucketfs.go:21-35 | While the driver answers, a name resolves exactly if the listing has it, to the path of its first entry |
| Discovery.PathAnswer | pkg/extensionAPI/context/bucketfs.go:21-35 | While the driver works a callback gets the least full path among the listable files of that name, and is refused exactly if there is none |
| Discovery.ClientCreated | pkg/extensionController/bfs/BucketFsApi.go:41-55 | A client is created exactly if the driver begins its transaction and executes the two statements, which are all the transaction holds |
| Discovery.QueryTexts | pkg/extensionController/bfs/BucketFsApi.go:64-92 | The two queries as they are sent |
| Discovery.ShownFilesResolve | pkg/extensionController/controller.go:95-103 | Every required file of a shown extension lies on the tree with the required name and size and resolves |
| Discovery.CollectIsConcatenation | pkg/extensionController/controller.go:161-182 | The collected installations are the answers of all extensions in registry order, tagged with the extension's id; any failure yields no list |
| Discovery.InstalledAreAllAnswers | pkg/extensionController/transactionController.go:219-229 | The operation succeeds exactly if it begins, both metadata queries are answered, all extensions load and every one answers with objects, and then returns all their answers, tagged |
| Discovery.CollectFails | pkg/extensionController/controller.go:172-176 | The first extension without a usable answer decides: its error ends the listing with its status, a panic or null entry with a panic |
| Discovery.WithIdTags | pkg/extensionController/controller.go:184-188 | Tagging replaces the id and keeps name and version |
| FileTree.TraversalExact | pkg/extensionController/bfs/udf/list_files_udf.py:32-55 | The traversal terminates and finds exactly the regular files below the root with no pruned directory strictly below the root on the way; links are never followed |
| FileTree.EachFileOnce | pkg/extensionController/bfs/udf/list_files_udf.py:50-55 | No file is found twice |
| FileTree.RowsExact | pkg/extensionController/bfs/udf/list_files_udf.py:26-30 | The rows are exactly those of the listable files, each with its name, its size and the names that lead to it behind those of the base path, and no two have the same full path |
| FileTree.RowUnderBase | pkg/extensionController/bfs/udf/list_files_udf.py:16-30 | The full path of a row is the base path without trailing slashes, a slash, and the names from the root to the file |
| FileTree.PruningIsExact | pkg/extensionController/bfs/udf/list_files_udf.py:32-36 | A directory is pruned exactly if an entry exaudf is a directory or leads to one over at most 40 links |
| FileTree.Run | pkg/extensionController/bfs/udf/list_files_udf.py:26-30 | Emits the rows of exactly the listable files in the order of the traversal, or fails for an empty path |
| Availability.LookupAgrees | pkg/extensionController/bfs/BucketFsApi.go:64-114 | The lookup returns the path of the first entry of that name in the listing, the least one, and finds nothing exactly if the listing has none, however ties are ordered |
| Availability.AvailableFilesResolve | pkg/extensionController/controller.go:95-103 | Every required file of an available extension is found by the lookup |
| Availability.AvailableMonotone | pkg/extensionController/controller.go:95-103 | More files never make an extension unavailable |
| Availability.ExistsFileInBfs | pkg/extensionController/controller.go:105-129 | Finds a file exactly if one has the required name and, unless the required size is negative, the required size |
| Availability.RequiredFilesAvailable | pkg/extensionController/controller.go:95-103 | All required files are there, each with its name and, unless negative, its size |
| SqlFilter.ValidateQuery | pkg/backend/ExasolSqlClient.go:133-144 | A statement is refused exactly if it is one of the two words, in any case, with nothing but tabs, line breaks, spaces and semicolons around it |
| SqlFilter.VerdictIsExact | pkg/backend/ExasolSqlClient.go:133-144 | The verdict refuses exactly those statements and names the word |
| SqlFilter.NormalFormDecides | pkg/backend/ExasolSqlClient.go:135-138 | Lower-casing, trimming and comparing finds exactly those spellings |
| SqlFilter.VerdictIgnoresCaseAndPadding | pkg/backend/ExasolSqlClient.go:135-138 | The verdict, and the word it names, do not change with case or with padding added at either end |
| SqlFilter.FilterCoversDatabase | pkg/backend/ExasolSqlClient.go:133-144 | The verdict refuses whatever ends a transaction in the database, and nothing else unless one of two non-ASCII letters is in the statement |
| Rows.QueryIsComplete | pkg/backend/ExasolSqlClient.go:48-97 | A query succeeds exactly if nothing went wrong from opening to closing, and then has all rows in order, each as wide as the columns |
| Rows.FirstErrorReported | pkg/backend/ExasolSqlClient.go:48-97 | The error reported is that of closing, else of the column types, else of the first row that cannot be scanned |
| Rows.ExtractRows | pkg/backend/ExasolSqlClient.go:99-116 | Rows are new, pairwise different arrays holding what was scanned although the buffer is reused |
| Rows.ReadAndClose | pkg/backend/ExasolSqlClient.go:58-69 | The cursor is closed on every path, an error of closing or iterating replaces the result, and no row shares memory with another |
| Rows.CloseRows | pkg/backend/ExasolSqlClient.go:71-80 | Closes the cursor and reports its close error or the error that ended the iteration |
| ParameterValidator.RulesDecide | pkg/parameterValidator/parameterValidator.js:7-51 | The script accepts exactly the values that satisfy the rule and throws only for broken definitions |
| ParameterValidator.RuleMessages | pkg/parameterValidator/parameterValidator.js:7-51 | What a refused value is told, by the first rule it breaks; for a select all options in order |
| ParameterValidator.FirstSuppliedDecides | pkg/parameterValidator/parameterValidator.go:122-137 | A definition is accepted exactly if the first value supplied under its id satisfies the rule, or, without one, if it is not required |
| ParameterValidator.FindParamValue | pkg/parameterValidator/parameterValidator.go:131-137 | The first value supplied under the id, or the empty string exactly if there is none |
| ParameterValidator.ReportIsComplete | pkg/parameterValidator/parameterValidator.go:108-129 | Without validator errors there is one report per failing definition, in order, and no other; each names the definition and says what the rules say about its first supplied value |
| ParameterValidator.ValidateParameters | pkg/parameterValidator/parameterValidator.go:108-120 | The loop returns that report or the first validator error |
| ParameterValidator.ConversionIsComplete | pkg/parameterValidator/parameterValidator.go:24-68 | Conversion succeeds exactly if every entry has string id and name, and keeps all of them in order |
| ParameterValidator.ConvertDefinitions | pkg/parameterValidator/parameterValidator.go:24-38 | The loop converts all entries or returns the first error |
| ParameterValidator.MessageIsJoin | pkg/extensionController/controller.go:364-368 | Appending separators and trimming the last one is joining |
| ParameterValidator.BuildMessage | pkg/extensionController/controller.go:364-368 | The loop builds that message |
| ParameterValidator.RefusalDecides | pkg/extensionController/controller.go:355-373 | Values pass exactly if every first supplied value is acceptable; otherwise status 400 with exactly the failing definitions' messages joined by a comma, or 500 if a rule threw |
| ParameterValidator.CheckParameters | pkg/extensionController/controller.go:355-373 | The check passes exactly the values that RefusalDecides accepts, and refuses others with that error |
| Errors.StatusPreservation | pkg/apiErrors/errors.go:48-67 | Through any stack of wraps and causes the status is that of the root API error, or 500 |
| Errors.ApiRootSurvives | pkg/apiErrors/errors.go:48-67 | The message is the cause messages in order and the root's message; plain wraps are dropped; the outermost cause is kept |
| Errors.PlainRootIsInternal | pkg/apiErrors/errors.go:61-67 | Any other root becomes an internal server error with the whole stack as its cause, also where the comment promises nil |
| Errors.PlainRootText | pkg/apiErrors/errors.go:57-58 | The text of such a stack names every layer |
| Errors.ReportedApiError | pkg/restAPI/requestResponseHelper.go:60-80 | What the client reads for a wrapped API error: status, messages, and the request id unless the status is 401 |
| Errors.ReportedInternalError | pkg/restAPI/requestResponseHelper.go:60-80 | What the client reads for any other error |
| Errors.HandleError | pkg/restAPI/requestResponseHelper.go:60-64 | Writes the status and the report of the first API error in the chain |
| Errors.SendError | pkg/restAPI/requestResponseHelper.go:66-80 | Updates the error object in place and writes status and body from it |
| Registry.CacheIsSnapshot | pkg/extensionController/registry/http.go:28-46 | Over every sequence of calls against a changing or failing source, failed loads are not cached and after the first success every answer comes from that snapshot |
| Registry.ListedIdsAreFound | pkg/extensionController/registry/http.go:79-94 | The index lookup answers 404 exactly for ids that are not listed |
| Registry.SnapshotAnswers | pkg/extensionController/registry/http.go:28-34 | A snapshot lists the ids of its entries in order and answers an id with the content behind the first entry that has it |
| Registry.GetExtensionIds | pkg/extensionController/registry/index/index.go:29-36 | The ids in order |
| Registry.GetExtension | pkg/extensionController/registry/index/index.go:38-46 | The first entry with the id |
| Registry.HttpRegistry.GetIndex | pkg/extensionController/registry/http.go:36-46 | Fills the cache only with a loaded index |
| Registry.HttpRegistry.FindAll | pkg/extensionController/registry/http.go:28-34 | The ids of the current index |
| Registry.HttpRegistry.Read | pkg/extensionController/registry/http.go:79-94 | The content behind the first entry of the current index |
| Loading.LoadAllIsConsistent | pkg/extensionController/controller.go:131-147 | All extensions come from the one index their ids came from, in order, each as delivered for its id, exactly if each content and script loads |
| Loading.GetAllExtensions | pkg/extensionController/controller.go:131-147 | The loop loads them or returns the first error |
| Loading.LoadExtensionById | pkg/extensionController/controller.go:149-159 | Loads one extension through the cache |
| Loading.FirstFailureReported | pkg/extensionController/controller.go:137-145 | The first extension that cannot be loaded ends the loading with its error |
| Loading.LoadByIdDelivers | pkg/extensionController/controller.go:149-159 | The extension comes from the cached index or the one loaded now, which is then kept |
| Loading.DeliveredIsFirst | pkg/extensionController/registry/http.go:79-94 | It is what the script of the first entry with the id yields, under that id |
| BasicAuth.BasicRoundTrip | pkg/restAPI/dbConnection.go:74-115 | Parsing the printed header gives back user and password exactly for users without a colon, for every password |
| BasicAuth.BearerRoundTrip | pkg/restAPI/dbConnection.go:79-91 | A token comes back exactly if it has no space |
| BasicAuth.DecodeUndoesEncode | pkg/restAPI/requestTestUtil.go:57-60 | Decoding undoes encoding for all bytes |
| BasicAuth.WellFormedDecodes | pkg/restAPI/dbConnection.go:102-106 | Whole groups of letters with at most two padding characters at the end are decoded, to bytes whose encoding is that text up to ignored bits |
| BasicAuth.DecodesOnlyWellFormed | pkg/restAPI/dbConnection.go:102-106 | No other text is decoded |
| BasicAuth.RefusedIsUnauthorized | pkg/restAPI/dbConnection.go:74-115 | Every refusal has status 401 |
| BasicAuth.HeaderDecides | pkg/restAPI/dbConnection.go:74-115 | Accepted are Bearer headers and Basic headers whose credentials decode to something with a colon, split at the first one; every other scheme is refused |
| BasicAuth.OneWordRefused | pkg/restAPI/dbConnection.go:74-83 | A missing header or one without a space is refused |
| Transaction.CreateBucketFsApi | pkg/extensionController/bfs/BucketFsApi.go:41-55 | Begins a transaction and rolls it back if the script cannot be created |
| Transaction.CreateUdf | pkg/extensionController/bfs/BucketFsApi.go:119-137 | Creates schema and script in the given transaction |
| Transaction.ListBucketFsFiles | pkg/extensionController/bfs/BucketFsApi.go:64-84 | Returns all rows sorted by path, or the first error |
| Transaction.FindBucketFsPath | pkg/extensionController/bfs/BucketFsApi.go:88-114 | Returns the path of the lookup query, or an error |
| Transaction.CloseBucketFsClient | pkg/extensionController/bfs/BucketFsApi.go:154-159 | Rolls the client's transaction back |
| Transaction.BeginTransaction | pkg/extensionController/transaction/transactionContext.go:27-48 | Begins the operation's transaction or tells apart the two kinds of failure |
| Transaction.TransactionContext.GetBucketFsClient | pkg/extensionController/transaction/transactionContext.go:75-84 | Creates the client on first use |
| Transaction.TransactionContext.CleanUp | pkg/extensionController/transaction/transactionContext.go:103-111 | Closes the client if there is one |
| Transaction.TransactionContext.RollBack | pkg/extensionController/transaction/transactionContext.go:87-92 | Closes and rolls back, ignoring errors |
| Transaction.TransactionContext.CommitChanges | pkg/extensionController/transaction/transactionContext.go:95-101 | Closes and, if that worked, commits |
| Extensions.ExecuteStatement | pkg/backend/ExasolSqlClient.go:33-44 | Filters and executes a statement; whether it is acknowledged is decided by Transcripts.ExecuteAnswer |
| Extensions.RunQuery | pkg/backend/ExasolSqlClient.go:48-69 | Filters and runs a query and reads its rows; what it answers is decided by Transcripts.QueryAnswer |
| Extensions.ResolveInBucketFs | pkg/extensionAPI/context/bucketfs.go:21-35 | Resolves a file through the context's client |
| Extensions.FindScriptRow | pkg/extensionAPI/exaMetadata/ExaMetadata.go:54-73 | Looks a script up in the operation's transaction |
| Extensions.PerformAction | pkg/extensionAPI/context/context.go:32-37 | The calls a callback can make |
| Extensions.RunCallback | pkg/extensionAPI/extensionApi.go:81-97 | A callback as an arbitrary strategy that depends on all answers so far |
| Extensions.CallExtension | pkg/extensionAPI/errorHandlingExtension.go:51-190 | The wrapper that turns a thrown value into an error |
| Controller.GetDefinitions | pkg/extensionController/controller.go:203-217 | Reads and converts the definitions |
| Controller.EnsureSchemaExists | pkg/extensionController/controller.go:346-352 | Creates the schema without the filter |
| Controller.DoInstall | pkg/extensionController/controller.go:219-229 | Schema, then install function |
| Controller.DoUninstall | pkg/extensionController/controller.go:231-242 | Check, then uninstall function |
| Controller.CheckNoInstances | pkg/extensionController/controller.go:244-257 | The two listings and their verdict |
| Controller.ConcatInstanceNames | pkg/extensionController/controller.go:259-268 | The loop that lists the names |
| Controller.ConcatIsJoin | pkg/extensionController/controller.go:259-268 | The names are joined by separators exactly if there is one at most or the first is not empty |
| Text.DecimalDenotes | pkg/extensionController/controller.go:254 | The printed number of remaining instances denotes it |
| Controller.DoUpgrade | pkg/extensionController/controller.go:271-277 | Calls the upgrade function |
| Controller.DoCreate | pkg/extensionController/controller.go:279-316 | Schema, definitions, validation, then the add function |
| Controller.DoDelete | pkg/extensionController/controller.go:326-332 | Calls the delete function with version and instance id (Operations.DeleteYields) |
| Controller.DoFind | pkg/extensionController/controller.go:334-340 | Lists the instances |
| Controller.DoList | pkg/extensionAPI/errorHandlingExtension.go:144-154 | The wrapped listing function |
| Controller.ReadMetadataTables | pkg/extensionAPI/exaMetadata/ExaMetadata.go:41-51 | Two queries in the operation's transaction |
| Controller.AddExtensionId | pkg/extensionController/controller.go:184-188 | Tags the objects in place and leaves name and version alone |
| Controller.FindTagged | pkg/extensionController/controller.go:172-177 | Tagged objects of one extension, all new |
| Controller.GetAllInstallations | pkg/extensionController/controller.go:161-182 | All objects, pairwise different, hold the tagged values of all answers (Discovery.InstalledAreAllAnswers); tagging later ones never disturbs earlier ones |
| Controller.GetAllExtensions | pkg/extensionController/controller.go:71-84 | The loop that filters and converts |
| TransactionController.StartOperation | pkg/extensionController/transactionController.go:281-287 | Begins the operation's transaction |
| TransactionController.CommitOrRollBack | pkg/extensionController/transactionController.go:175-183 | Commits on success and rolls back always |
| TransactionController.ListBfsFiles | pkg/extensionController/transactionController.go:153-168 | Lists the files in a transaction that is rolled back |
| TransactionController.GetExtensions | pkg/extensionController/transactionController.go:142-151 | Ends in the state and with the result of `Serve`: the extensions whose required files lie on the tree (Discovery.ShownIffFilesLie); the files are listed and the transaction rolled back before anything is filtered |
| TransactionController.GetInstalledExtensions | pkg/extensionController/transactionController.go:219-229 | Ends in the state of `Serve`; the objects returned are new, pairwise different and hold all tagged answers (Discovery.InstalledAreAllAnswers) |
| TransactionController.GetParameterDefinitions | pkg/extensionController/transactionController.go:231-238 | Ends in the state and with the definitions of `Serve` (Operations.DefinitionsYield); nothing is committed (Atomicity.ServeIsAtomic) |
| TransactionController.FindInstances | pkg/extensionController/transactionController.go:256-263 | Ends in the state and with the instances of `Serve` (Operations.InstancesYield); nothing is committed (Atomicity.ServeIsAtomic) |
| TransactionController.Install | pkg/extensionController/transactionController.go:170-184 | Ends in the state and with the result of `Serve`: committed on success only (Atomicity.ServeIsAtomic, Transcripts.InstallCommits) |
| TransactionController.Uninstall | pkg/extensionController/transactionController.go:186-200 | Ends in the state and with the result of `Serve`: committed only behind the gate (Gates.UninstallGate, Operations.UninstallCommits) |
| TransactionController.Upgrade | pkg/extensionController/transactionController.go:203-217 | Ends in the state and with the result of `Serve` (Operations.UpgradeYields); a failed commit hides the upgrade result |
| TransactionController.CreateInstance | pkg/extensionController/transactionController.go:240-254 | Ends in the state and with the result of `Serve`: committed only behind the gate (Gates.CreateGate, Operations.CreateCommits) |
| TransactionController.DeleteInstance | pkg/extensionController/transactionController.go:265-279 | Ends in the state and with the result of `Serve`: on success exactly what the delete function, called with version and instance id, executed is committed (Operations.DeleteCommits) |

## Left out

- The goja virtual machine, loading and exporting scripts: a script is a function from its text to an extension, `RegExp.test` is a parameter, and a callback that never returns is not modelled (its number of context calls is bounded by an arbitrary limit).
- Transaction.ListBucketFsFiles: an iteration that the database cuts short without a scan error is not modelled, because `readQueryResult` does not ask for that error; completeness of an iteration is claimed for queries of extensions only.
- Controller.ReadMetadataTables: each of the two tables is one request; the rows handed to `findInstallations` are not modelled.
- Extensions.FindScriptRow: the row is whatever the driver returns; an iteration error before the first row is not distinguished from an empty result, as in the code.
- The Exasol engine: statement text is opaque except that a statement ends a transaction if it is one of the two words in ASCII letters of any case between padding (comments around the words and several statements in one text are not modelled), a statement adds itself to the workspace of its transaction, and only the sorting, filtering and limiting of the two BucketFS queries is modelled. The text of the metadata queries and of the listing script is a parameter.
- Cancelled contexts, lost connections other than as failing requests, and concurrent operations on one database object.
- FileTree.RowUnderBase: for base paths with exactly two leading slashes and nothing else, with empty or single-dot names in them, or without a leading slash, `RowOf` says what a path object prints instead.
- FileTree.Run: the root is a directory and the tree does not change during the traversal; a file system is numbered so that directories lie above their subdirectories, and the size conversion through a float is the identity.
- Errors.Describe: %q is modelled by putting quotes around the text; escaping is not. In the texts of `BadDefinition` and `ValidatorFailed` the printed definition is left out.
- Errors.SendError: JSON encoding, request logging and the rejection of status codes outside the range of HTTP by the response writer.
- Schema names that collide because two clients are created within one second: the name is an arbitrary function of the moment.
- The registry in a local directory, the version check of the extension API, server start and stop, routing, OpenAPI definitions and handlers that copy fields.
- Java integration-test code, registry upload, AWS stacks and mocks.
