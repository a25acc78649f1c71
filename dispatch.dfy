/**
 * The pure decisions of the request handlers in server.ts: answer only when
 * both the document and its syntax tree resolve, the capabilities announced
 * on initialisation, and the completion-resolve stub.
 */
module Dispatch {
  import opened Wrappers
  import opened Js
  import opened Protocol

  /**
   * `doc && ast ? query(doc, ast) : invalidRequest()`, the rule of the hover,
   * references, definition and completion handlers.
   */
  function Answer<T>(doc: Option<TextDocument>, ast: Option<SourceFile>,
                     query: (TextDocument, SourceFile) -> T): (r: Response<T>)
    ensures r.Error? <==> doc.None? || ast.None?
    ensures r.Error? ==> r.error == InvalidRequest
    ensures r.Result? ==> r.value == query(doc.value, ast.value)
  {
    if doc.Some? && ast.Some? then Result(query(doc.value, ast.value)) else Error(InvalidRequest)
  }

  /** The rename handler: also an invalid request when the engine renames nothing. */
  function RenameAnswer(doc: Option<TextDocument>, ast: Option<SourceFile>,
                        rename: (TextDocument, SourceFile) -> Option<WorkspaceEdit>): (r: Response<WorkspaceEdit>)
    ensures r.Result? <==> doc.Some? && ast.Some? && rename(doc.value, ast.value).Some?
    ensures r.Error? ==> r.error == InvalidRequest
    ensures r.Result? ==> rename(doc.value, ast.value) == Some(r.value)
  {
    if doc.Some? && ast.Some? then
      match rename(doc.value, ast.value)
      case Some(edit) => Result(edit)
      case None => Error(InvalidRequest)
    else Error(InvalidRequest)
  }

  /**
   * Whether the client announced support for related information in published
   * diagnostics: every level of `capabilities.textDocument.publishDiagnostics.relatedInformation`
   * must be present and the flag itself true.
   */
  function SupportsRelatedInformation(capabilities: Option<ClientCapabilities>): (r: bool)
    ensures r <==> capabilities.Some?
                   && capabilities.value.textDocument.Some?
                   && capabilities.value.textDocument.value.publishDiagnostics.Some?
                   && capabilities.value.textDocument.value.publishDiagnostics.value.relatedInformation == Some(true)
  {
    match capabilities
    case Some(ClientCapabilities(Some(TextDocumentClientCapabilities(Some(pd))))) =>
      pd.relatedInformation.Some? && pd.relatedInformation.value
    case _ => false
  }

  /**
   * The capabilities the server announces: full-document sync, completion
   * triggered by `=` without a resolve provider, hover, references, definition,
   * rename and code-action providers, and the engine's commands.
   */
  function Capabilities(commands: seq<string>): (c: ServerCapabilities)
    ensures c.textDocumentSync == SyncFull
    ensures c.completionProvider.triggerCharacters == ["="] && !c.completionProvider.resolveProvider
    ensures c.hoverProvider && c.referencesProvider && c.definitionProvider
    ensures c.renameProvider && c.codeActionProvider
    ensures c.executeCommands == commands
  {
    ServerCapabilities(
      textDocumentSync := SyncFull,
      completionProvider := CompletionOptions(["="], false),
      hoverProvider := true,
      referencesProvider := true,
      definitionProvider := true,
      renameProvider := true,
      codeActionProvider := true,
      executeCommands := commands)
  }

  const TypeScriptDetails := "TypeScript details"
  const TypeScriptDocumentation := "TypeScript documentation"
  const JavaScriptDetails := "JavaScript details"
  const JavaScriptDocumentation := "JavaScript documentation"

  /**
   * The completion-resolve handler: an item whose `data` is exactly the number
   * 1 or 2 gets a fixed detail and documentation; every other item, and every
   * other field, is returned as it came.
   */
  function CompletionResolve(item: CompletionItem): (r: CompletionItem)
    ensures r.labelText == item.labelText && r.data == item.data
    ensures item.data == Number(1.0) ==>
              r.detail == Some(TypeScriptDetails) && r.documentation == Some(TypeScriptDocumentation)
    ensures item.data == Number(2.0) ==>
              r.detail == Some(JavaScriptDetails) && r.documentation == Some(JavaScriptDocumentation)
    ensures item.data != Number(1.0) && item.data != Number(2.0) ==> r == item
  {
    if item.data == Number(1.0) then
      item.(detail := Some(TypeScriptDetails), documentation := Some(TypeScriptDocumentation))
    else if item.data == Number(2.0) then
      item.(detail := Some(JavaScriptDetails), documentation := Some(JavaScriptDocumentation))
    else item
  }
}
