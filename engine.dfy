/**
 * The analysis engine (`dot-language-support`'s language service). Its
 * operations are opaque to the server, so the model takes them as function
 * values: every property proved holds whatever these functions compute.
 */
module Engine {
  import opened Wrappers
  import opened Protocol

  datatype LanguageService = LanguageService(
    parseDocument: TextDocument -> SourceFile,
    validateDocument: (TextDocument, SourceFile) -> seq<Diagnostic>,
    hover: (TextDocument, SourceFile, Position) -> Option<Hover>,
    findReferences: (TextDocument, SourceFile, Position, ReferenceContext) -> seq<Location>,
    findDefinition: (TextDocument, SourceFile, Position) -> Option<Definition>,
    getCompletions: (TextDocument, SourceFile, Position) -> seq<CompletionItem>,
    renameSymbol: (TextDocument, SourceFile, Position, string) -> Option<WorkspaceEdit>,
    getCodeActions: (TextDocument, SourceFile, Range, CodeActionContext) -> Option<seq<Command>>,
    executeCommand: (TextDocument, SourceFile, ExecuteCommandParams) -> Option<WorkspaceEdit>,
    getAvailableCommands: seq<string>)
}
