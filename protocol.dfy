/**
 * The shapes of the Language Server Protocol messages the server reads and
 * writes. Values that only the analysis engine produces or consumes are
 * abstract types: the server never looks inside them.
 */
module Protocol {
  import opened Wrappers
  import opened Js

  type Uri = string

  type SourceFile
  type Position
  type Range
  type ReferenceContext
  type CodeActionContext
  type Diagnostic
  type Hover
  type Location
  type Definition
  type WorkspaceEdit

  /** A document of the document store: its URI, version and full text. */
  datatype TextDocument = TextDocument(uri: Uri, version: int, text: string)

  /** The error a request handler answers with instead of a result. */
  datatype ResponseError = ResponseError(code: int, message: string)

  /** vscode-jsonrpc's `ErrorCodes.InvalidRequest`. */
  const InvalidRequestCode: int := -32600

  /** What the server's `invalidRequest()` builds. */
  const InvalidRequest := ResponseError(InvalidRequestCode, "Invalid request")

  /** A request handler returns either its result or a `ResponseError`. */
  datatype Response<+T> = Result(value: T) | Error(error: ResponseError)

  /** A command of a code action; `arguments` is an optional array of any values. */
  datatype Command = Command(title: string, command: string, arguments: Option<seq<JsValue>>)

  datatype ExecuteCommandParams = ExecuteCommandParams(command: string, arguments: Option<seq<JsValue>>)

  datatype CompletionItem = CompletionItem(
    labelText: string,  // the item's `label`
    data: JsValue,
    detail: Option<string>,
    documentation: Option<string>)

  /** The payload of `connection.sendDiagnostics`. */
  datatype PublishDiagnosticsParams = PublishDiagnosticsParams(uri: Uri, diagnostics: seq<Diagnostic>)

  /** The `dotLanguageServer` settings section. */
  datatype DotLanguageServerSettings = DotLanguageServerSettings(maxNumberOfProblems: int)

  const DefaultSettings := DotLanguageServerSettings(100)

  /**
   * The `settings` member of a configuration change: either `null`/`undefined`,
   * or an object that may or may not carry a `dotLanguageServer` section.
   */
  datatype ConfigurationSettings =
    | NoSettings
    | SettingsObject(dotLanguageServer: Option<DotLanguageServerSettings>)

  datatype PublishDiagnosticsClientCapabilities =
    PublishDiagnosticsClientCapabilities(relatedInformation: Option<bool>)

  datatype TextDocumentClientCapabilities =
    TextDocumentClientCapabilities(publishDiagnostics: Option<PublishDiagnosticsClientCapabilities>)

  datatype ClientCapabilities = ClientCapabilities(textDocument: Option<TextDocumentClientCapabilities>)

  datatype InitializeParams = InitializeParams(capabilities: Option<ClientCapabilities>)

  datatype TextDocumentSyncKind = SyncNone | SyncFull | SyncIncremental

  datatype CompletionOptions = CompletionOptions(triggerCharacters: seq<string>, resolveProvider: bool)

  datatype ServerCapabilities = ServerCapabilities(
    textDocumentSync: TextDocumentSyncKind,
    completionProvider: CompletionOptions,
    hoverProvider: bool,
    referencesProvider: bool,
    definitionProvider: bool,
    renameProvider: bool,
    codeActionProvider: bool,
    executeCommands: seq<string>)

  datatype InitializeResult = InitializeResult(capabilities: ServerCapabilities)
}
