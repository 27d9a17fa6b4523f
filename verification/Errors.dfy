/** Error chains (apiErrors) and the end of the chain that writes them to the client (restAPI). */
module Errors {
  import opened Text

  /** The step during which an error was wrapped. */
  datatype Step =
    | CreatingUdfSchema | CreatingUdfScript | BeginningBucketFs
    | PreparingListing | Listing | ReadingListing
    | PreparingLookup | LookingUp | IteratingLookup | ReadingPath
    | RollingBackBucketFs | ClosingClient
    | BeginningTransaction | StartingTransaction | SearchingRequiredFiles
    | Executing(statement: string) | Querying(statement: string) | ReadingResult(statement: string)
    | ClosingResult | IteratingResult
    | ResolvingPath(fileName: string) | FindingScript(schema: string, script: string)
    | LoadingExtension(id: string) | ReadingMetadata | ReadingTable(table: string) | ReadingRow(table: string) | CreatingSchema
    | RefusingUninstall | CheckingInstances | GettingDefinitions | ValidatingParameters
    | ConvertingThrown(thrown: string)
    | Custom(prefix: string)

  function Describe(step: Step): string {
    match step
    case CreatingUdfSchema => "failed to create a schema for BucketFS list script. Cause: "
    case CreatingUdfScript => "failed to create UDF script for listing bucket. Cause: "
    case BeginningBucketFs => "failed to create a transaction. Cause: "
    case PreparingListing => "failed to create prepared statement for listing files. Cause: "
    case Listing => "failed to list files. Cause: "
    case ReadingListing => "failed reading result of BucketFS list UDF. Cause: "
    case PreparingLookup => "failed to create prepared statement for running list files UDF. Cause: "
    case LookingUp => "failed to find absolute path in BucketFS using UDF. Cause: "
    case IteratingLookup => "failed iterating absolute path results. Cause: "
    case ReadingPath => "failed reading absolute path. Cause: "
    case RollingBackBucketFs => "failed to rollback transaction to cleanup resources. Cause: "
    case ClosingClient => "failed to close BucketFS client: "
    case BeginningTransaction => "failed to begin transaction: "
    case StartingTransaction => "failed to start transaction: "
    case SearchingRequiredFiles => "failed to search for required files in BucketFS. Cause: "
    case Executing(statement) => "error executing statement '" + statement + "': "
    case Querying(statement) => "error executing query '" + statement + "': "
    case ReadingResult(statement) => "error reading result from statement " + Quoted(statement) + ": "
    case ClosingResult => "error closing result: "
    case IteratingResult => "error while iterating result: "
    case ResolvingPath(fileName) => "failed to find absolute path for file " + Quoted(fileName) + ": "
    case FindingScript(schema, script) => "failed to find script " + Quoted(schema) + "." + Quoted(script) + ". Caused by: "
    case LoadingExtension(id) => "failed to load extension " + Quoted(id) + ": "
    case ReadingMetadata => "failed to read metadata tables. Cause: "
    case ReadingTable(table) => "failed to read SYS." + table + ": "
    case ReadingRow(table) => "failed to read row of " + table + ": "
    case CreatingSchema => "failed to create schema: "
    case RefusingUninstall => "cannot uninstall extension because instances remain: "
    case CheckingInstances => "failed to check existing instances: "
    case GettingDefinitions => "failed to get parameter definitions: "
    case ValidatingParameters => "failed to validate parameters: "
    case ConvertingThrown(thrown) => "failed to convert error " + thrown + " to ApiError: "
    case Custom(prefix) => prefix
  }

  /** The functions an extension may offer. */
  datatype Function =
    | GetParameterDefinitions | Install | Uninstall | Upgrade
    | FindInstallations | AddInstance | FindInstances | DeleteInstance

  /** The name under which an unsupported function is reported. */
  function NameOf(f: Function): string {
    match f
    case GetParameterDefinitions => "getParameterDefinitions"
    case Install => "install"
    case Uninstall => "uninstall"
    case Upgrade => "upgrade"
    case FindInstallations => "findInstallations"
    case AddInstance => "addInstance"
    case FindInstances => "findInstances"
    case DeleteInstance => "deleteInstance"
  }

  /** What the program was doing when it called the function; `detail` is the version or instance. */
  function Doing(f: Function, id: string, detail: string): string {
    match f
    case GetParameterDefinitions => "failed to get parameter definitions for extension " + Quoted(id)
    case Install => "failed to install extension " + Quoted(id)
    case Uninstall => "failed to uninstall extension " + Quoted(id)
    case Upgrade => "failed to upgrade extension " + Quoted(id)
    case FindInstallations => "failed to find installations for extension " + Quoted(id)
    case AddInstance => "failed to add instance for extension " + Quoted(id)
    case FindInstances => "failed to list instances for extension " + Quoted(id) + " in version " + Quoted(detail)
    case DeleteInstance => "failed to delete instance " + Quoted(detail) + " for extension " + Quoted(id)
  }

  /** A failure the program itself detects, other than an API error. */
  datatype Problem =
    | NoBasePath
    | TransactionDone
    | FileNotFound(fileName: string)
    | ForbiddenStatement(statement: string, command: string)
    | WrongScanWidth
    | Unsupported(id: string, callback: Function)
    | CallFailed(callback: Function, id: string, detail: string, text: string)
    | NoInstance(id: string)
    | BadDefinition(key: string)
    | ValidatorFailed(value: string, id: string)
    | Other(text: string)

  function Explain(problem: Problem): string {
    match problem
    case NoBasePath => "bucketFsBasePath is empty"
    case TransactionDone => "sql: transaction has already been committed or rolled back"
    case FileNotFound(fileName) => "file " + Quoted(fileName) + " not found in BucketFS"
    case ForbiddenStatement(statement, command) =>
      "statement " + Quoted(statement) + " contains forbidden command " + Quoted(command)
      + ". Transaction handling is done by extension manager"
    case WrongScanWidth => "sql: wrong number of destination arguments in Scan"
    case Unsupported(id, f) => "extension " + Quoted(id) + " does not support operation " + Quoted(NameOf(f))
    case CallFailed(f, id, detail, text) => Doing(f, id, detail) + ": " + text
    case NoInstance(id) => "extension " + Quoted(id) + " did not return an instance"
    case BadDefinition(key) => "entry " + Quoted(key) + " missing or of unexpected type in parameter definition"
    case ValidatorFailed(value, id) => "failed to validate parameter value " + Quoted(value) + " with id " + Quoted(id)
    case Other(text) => text
  }

  /** Errors as the program builds them: `Wrapped` is what a %w verb leaves in the chain, while
      an `Api` error keeps its cause in a field that the chain lookup does not follow. */
  datatype Error =
    | Plain(problem: Problem)
    | Wrapped(step: Step, cause: Error)
    | Api(status: int, message: string, requestId: string, original: Option<Error>)
  {
    function Text(): string {
      match this
      case Plain(problem) => Explain(problem)
      case Wrapped(step, cause) => Describe(step) + cause.Text()
      case Api(_, message, _, _) => message
    }

    /** The first API error of the chain. */
    function AsApi(): (found: Option<Error>)
      ensures found.Some? ==> found.value.Api?
    {
      match this
      case Plain(_) => None
      case Wrapped(_, cause) => cause.AsApi()
      case Api(_, _, _, _) => Some(this)
    }
  }

  /** `Panic` is a Go panic that no wrapper of the extension API recovers. */
  datatype Result<+T> = Ok(value: T) | Err(error: Error) | Panic
  {
    predicate IsFailure() {
      !Ok?
    }

    function PropagateFailure<U>(): Result<U>
      requires IsFailure()
    {
      if Err? then Err(error) else Panic
    }

    function Extract(): T
      requires !IsFailure()
    {
      value
    }

    function Map<U>(f: T -> U): Result<U> {
      if Ok? then Ok(f(value)) else PropagateFailure()
    }

    /** Wraps an error and leaves everything else alone. */
    function Wrap(step: Step): Result<T> {
      if Err? then Err(Wrapped(step, error)) else this
    }

    /** Passes a failure on with its error wrapped. */
    function Fail<U>(step: Step): Result<U>
      requires IsFailure()
    {
      if Err? then Err(Wrapped(step, error)) else Panic
    }
  }

  const BAD_REQUEST := 400
  const UNAUTHORIZED := 401
  const NOT_FOUND := 404
  const INTERNAL_SERVER_ERROR := 500

  function NewApiError(status: int, message: string): Error {
    Api(status, message, "", None)
  }

  function NewInternalServerError(original: Error): Error {
    Api(INTERNAL_SERVER_ERROR, "Internal server error", "", Some(original))
  }

  function NewApiErrorWithCause(message: string, cause: Error): Error {
    match cause.AsApi()
    case Some(api) => Api(api.status, message + ": " + api.message, "", Some(cause))
    case None => Wrapped(Custom(message + ": "), cause)
  }

  function UnwrapApiError(error: Error): (api: Error)
    ensures api.Api?
  {
    match error.AsApi()
    case Some(api) => api
    case None => NewInternalServerError(error)
  }

  /** The status the client gets for an error. */
  function StatusOf(error: Error): int {
    UnwrapApiError(error).status
  }

  lemma WrappingKeepsStatus(step: Step, error: Error)
    ensures StatusOf(Wrapped(step, error)) == StatusOf(error)
  {
  }

  // ----- Stacks of wrapping layers -----

  datatype Layer = Wrap(step: Step) | WithCause(message: string)

  /** An error wrapped layer by layer; the first layer is the outermost one. */
  function Stack(layers: seq<Layer>, root: Error): Error {
    if layers == [] then root
    else
      match layers[0]
      case Wrap(step) => Wrapped(step, Stack(layers[1..], root))
      case WithCause(message) => NewApiErrorWithCause(message, Stack(layers[1..], root))
  }

  /** The messages of the layers that name a cause, outermost first. */
  function CauseMessages(layers: seq<Layer>): seq<string> {
    if layers == [] then []
    else (if layers[0].WithCause? then [layers[0].message] else []) + CauseMessages(layers[1..])
  }

  /** Everything the layers contribute to the text of an error that is not an API error. */
  function AllPrefixes(layers: seq<Layer>): string {
    if layers == [] then ""
    else (if layers[0].Wrap? then Describe(layers[0].step) else layers[0].message + ": ") + AllPrefixes(layers[1..])
  }

  /** The error below the outermost layer that names a cause, or what the root itself keeps. */
  function KeptCause(layers: seq<Layer>, root: Error): Option<Error>
    requires root.Api?
  {
    if layers == [] then root.original
    else if layers[0].WithCause? then Some(Stack(layers[1..], root))
    else KeptCause(layers[1..], root)
  }

  /** An API error keeps its status and gains exactly the messages of the cause layers, however
      many layers of either kind are stacked on it. */
  lemma {:induction false} ApiRootSurvives(layers: seq<Layer>, root: Error)
    requires root.Api?
    ensures Stack(layers, root).AsApi().Some?
    ensures StatusOf(Stack(layers, root)) == root.status
    ensures UnwrapApiError(Stack(layers, root)).message == Join(CauseMessages(layers) + [root.message], ": ")
    ensures UnwrapApiError(Stack(layers, root)).original == KeptCause(layers, root)
    ensures UnwrapApiError(Stack(layers, root)).requestId == if CauseMessages(layers) == [] then root.requestId else ""
  {
    if layers == [] {
      assert CauseMessages(layers) + [root.message] == [root.message];
    } else {
      ApiRootSurvives(layers[1..], root);
      var rest := CauseMessages(layers[1..]) + [root.message];
      if layers[0].WithCause? {
        assert CauseMessages(layers) + [root.message] == [layers[0].message] + rest;
        assert ([layers[0].message] + rest)[1..] == rest;
      } else {
        assert CauseMessages(layers) + [root.message] == rest;
      }
    }
  }

  /** Any other root becomes an internal server error that keeps the whole stack as its cause. */
  lemma {:induction false} PlainRootIsInternal(layers: seq<Layer>, root: Error)
    requires root.Plain?
    ensures Stack(layers, root).AsApi().None?
    ensures UnwrapApiError(Stack(layers, root)) == Api(500, "Internal server error", "", Some(Stack(layers, root)))
  {
    if layers != [] {
      PlainRootIsInternal(layers[1..], root);
    }
  }

  /** The text of such a stack names every layer, from the outermost to the root. */
  lemma {:induction false} PlainRootText(layers: seq<Layer>, root: Error)
    requires root.Plain?
    ensures Stack(layers, root).Text() == AllPrefixes(layers) + root.Text()
  {
    hide Describe, Explain;
    if layers != [] {
      PlainRootText(layers[1..], root);
      PlainRootIsInternal(layers[1..], root);
      var own := if layers[0].Wrap? then Describe(layers[0].step) else layers[0].message + ": ";
      AsIs(own);
      assert own + (AllPrefixes(layers[1..]) + root.Text()) == (own + AllPrefixes(layers[1..])) + root.Text();
    }
  }

  lemma AsIs(prefix: string)
    ensures Describe(Custom(prefix)) == prefix
  {
  }

  /** For every finite stack of layers of either kind, the status is that of the root, or 500 if the
      root is no API error. */
  lemma {:induction false} StatusPreservation(layers: seq<Layer>, root: Error)
    requires !root.Wrapped?
    ensures StatusOf(Stack(layers, root)) == if root.Api? then root.status else 500
  {
    if root.Api? {
      ApiRootSurvives(layers, root);
    } else {
      PlainRootIsInternal(layers, root);
    }
  }

  // ----- Writing the error to the client -----

  /** The error object that the response helper updates in place. */
  class ApiErrorObject {
    const status: int
    var message: string
    var requestId: string
    const original: Option<Error>

    constructor (api: Error)
      requires api.Api?
      ensures status == api.status && message == api.message
      ensures requestId == api.requestId && original == api.original
    {
      status := api.status;
      message := api.message;
      requestId := api.requestId;
      original := api.original;
    }
  }

  class ResponseWriter {
    var contentType: string
    var status: Option<int>
    var body: Option<Error>

    constructor ()
      ensures contentType == "" && status.None? && body.None?
    {
      contentType, status, body := "", None, None;
    }
  }

  /** What the client reads: the stack's status and message, and for an internal error the kept
      cause behind the message when the server is configured to add it. */
  function Reported(api: Error, requestId: Option<string>, addCause: bool): Error
    requires api.Api?
  {
    Api(api.status,
        if addCause && api.status == INTERNAL_SERVER_ERROR && api.original.Some?
          then api.message + ": " + api.original.value.Text() else api.message,
        if requestId.Some? && api.status != UNAUTHORIZED then requestId.value else api.requestId,
        api.original)
  }

  method SendError(a: ApiErrorObject, requestId: Option<string>, addCause: bool, writer: ResponseWriter)
    modifies a, writer
    ensures writer.contentType == "application/json" && writer.status == Some(a.status)
    ensures writer.body == Some(Reported(old(Api(a.status, a.message, a.requestId, a.original)), requestId, addCause))
    ensures writer.body == Some(Api(a.status, a.message, a.requestId, a.original))
  {
    writer.contentType := "application/json";
    writer.status := Some(a.status);
    if requestId.Some? && a.status != UNAUTHORIZED {
      a.requestId := requestId.value;
    }
    if addCause && a.status == INTERNAL_SERVER_ERROR && a.original.Some? {
      a.message := a.message + ": " + a.original.value.Text();
    }
    writer.body := Some(Api(a.status, a.message, a.requestId, a.original));
  }

  method HandleError(error: Error, requestId: Option<string>, addCause: bool, writer: ResponseWriter)
    modifies writer
    ensures writer.contentType == "application/json" && writer.status == Some(StatusOf(error))
    ensures writer.body == Some(Reported(UnwrapApiError(error), requestId, addCause))
  {
    var errorToSend := new ApiErrorObject(UnwrapApiError(error));
    SendError(errorToSend, requestId, addCause, writer);
  }

  /** What the client reads for an API error that was wrapped in any number of layers of either kind:
      the messages of the cause layers in order and the root's own, plain wraps dropped; for status
      500 the kept cause follows if the server is configured to add it. The id of the request is
      filled in unless the status is 401; then, or without a request id, the error's own id stays,
      which a cause layer has reset. */
  lemma ReportedApiError(layers: seq<Layer>, root: Error, requestId: Option<string>, addCause: bool)
    requires root.Api?
    ensures var report := Reported(UnwrapApiError(Stack(layers, root)), requestId, addCause);
            var base := Join(CauseMessages(layers) + [root.message], ": ");
            var kept := KeptCause(layers, root);
            && report.status == root.status
            && report.message == (if addCause && root.status == 500 && kept.Some?
                                    then base + ": " + kept.value.Text() else base)
            && report.original == kept
            && report.requestId == (if requestId.Some? && root.status != 401 then requestId.value
                                    else if CauseMessages(layers) == [] then root.requestId else "")
  {
    hide Describe, Explain;
    ApiRootSurvives(layers, root);
  }

  /** What the client reads for any other error: nothing of its text unless the cause is added. */
  lemma ReportedInternalError(layers: seq<Layer>, root: Error, requestId: Option<string>, addCause: bool)
    requires root.Plain?
    ensures var report := Reported(UnwrapApiError(Stack(layers, root)), requestId, addCause);
            && report.status == 500
            && (!addCause ==> report.message == "Internal server error")
            && (addCause ==> report.message == "Internal server error" + ": " + (AllPrefixes(layers) + root.Text()))
            && report.requestId == (if requestId.Some? then requestId.value else "")
            && report.original == Some(Stack(layers, root))
  {
    hide Describe, Explain;
    PlainRootIsInternal(layers, root);
    PlainRootText(layers, root);
  }

  /** Every error is such a stack, so the statement above leaves none out. */
  lemma {:induction false} EveryErrorIsAStack(error: Error) returns (layers: seq<Layer>, root: Error)
    ensures !root.Wrapped? && error == Stack(layers, root)
  {
    if error.Wrapped? {
      layers, root := EveryErrorIsAStack(error.cause);
      layers := [Wrap(error.step)] + layers;
    } else {
      layers, root := [], error;
    }
  }
}
