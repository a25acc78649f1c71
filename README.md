# DOT language server: session layer, in Dafny

This project models the session layer of the Graphviz DOT language server
(`src/server.ts`) and the transport check of its command line (`src/cli.ts`).

The server keeps a store of open documents and a cache `astOfFile` that maps
each URI to the syntax tree the analysis engine parsed for it. It has two ways
to fill the cache:

- `ensureAst` is lazy. It parses only when the URI has no tree yet.
- `updateAst` is forced. It re-parses whenever the document exists.

Each query handler answers with the engine's result only when both the document
and its tree resolve. Otherwise it answers with an invalid-request error. Code
actions append the document's URI to every command's arguments, and
execute-command pops it off again. A configuration change replaces the settings
only when it carries a `dotLanguageServer` section. It then re-parses and
re-validates every cached document that is still open.

Layout:

- `wrappers.dfy`: `Option`.
- `js.dfy`: JavaScript values and truthiness.
- `protocol.dfy`: the protocol shapes. Values only the engine looks into are abstract types.
- `engine.dfy`: the analysis engine, a record of function values. Every result holds whatever the engine computes.
- `commands.dfy`: how the URI is threaded through command arguments.
- `dispatch.dfy`: the pure decisions of the handlers.
- `server.dfy`: class `Server`. It holds the document store, the cache with its key order, the settings and the capability flag, plus three logs: parser calls, `sendDiagnostics` notifications and applied workspace edits. The logs let the model count how often each happens.
- `cli.dfy`: the exactly-one-transport check.

The invariant `Server.Valid()` ties the cache to the store. Every cached tree
of an open document is the parse of that document's current text. A closed
document's tree may stay in the cache, because nothing evicts it. Every open
document also has a cached tree, because the open handler always caches one.
Every handler keeps both invariants. So a query on an open document is always answered from
the current text, and a query on a closed document gets an invalid-request
error even when a stale tree is still cached.

In several places the documented design and the code differ. The model follows
the code:

- Closing a document leaves its cache entry in place.
- `updateAst` without a document keeps any old entry instead of removing it.
- A configuration change without a `dotLanguageServer` section keeps the current settings instead of restoring the defaults.
- `maxNumberOfProblems` is never read, so nothing caps the published diagnostics.
- Opening a document is not just one rebuild and validation. The server's open handler parses once. The document store then fires its content-change event as well, which parses again and publishes diagnostics once (see `DidOpen`).

## Model

| member | source | states |
|---|---|---|
| `Commands.WithUri` | src/server.ts:136-141 | the URI becomes the last argument; the command's own arguments stay in front of it, in order; no arguments give `[uri]` |
| `Commands.TagCommands` | src/server.ts:135-142 | every command gets the URI appended; the number and order of the commands and their titles and command names do not change |
| `Commands.PopUri` | src/server.ts:153-162 | nothing is popped exactly when the arguments are absent or empty; otherwise the remaining arguments followed by the popped one are the original arguments, and an empty remainder becomes absent |
| `Commands.Target` | src/server.ts:158-160 | the document URI is the popped argument when it is a string |
| `Commands.CodeActionRoundTrip` | src/server.ts:133-162 | executing a tagged command recovers the original URI and the original arguments in order; an original `[]` comes back absent |
| `Commands.TaggedCommandsTargetDocument` | src/server.ts:133-141 | every command the code-action handler returns names the requested document |
| `Dispatch.Answer` | src/server.ts:81-83 | invalid request exactly when the document or the tree is missing; otherwise the engine's result, unchanged |
| `Dispatch.RenameAnswer` | src/server.ts:178-182 | a result exactly when the document and tree resolve and the engine produces an edit; that edit is returned |
| `Dispatch.SupportsRelatedInformation` | src/server.ts:29-30 | true exactly when every level of the client's `relatedInformation` path is present and the flag is true |
| `Dispatch.Capabilities` | src/server.ts:32-50 | full sync, completion on `=` without resolve, all five providers on, the engine's commands |
| `Dispatch.CompletionResolve` | src/server.ts:243-252 | `data` 1 and 2 get their fixed detail and documentation; any other item comes back unchanged |
| `Server.OpenDocumentsOncePerKey` | src/server.ts:53-56 | a pass over the cache keys touches each cached URI with an open document exactly once and no other URI |
| `Server.EveryOpenDocumentOnce` | src/server.ts:53-56 | when every open document is cached, a pass over the cache keys touches each open document exactly once |
| `Server.ValidationsAreFresh` | src/server.ts:207-220 | when the cache is coherent, each validation publishes the engine's diagnostics for the current text, one per open cached document, in key order |
| `Server.Server.constructor` | src/server.ts:18-24 | the server starts with no documents, an empty cache, empty logs and related information off (default settings, line 195) |
| `Server.Server.UpdateAst` | src/server.ts:58-68 | with a document: the tree is exactly its parse, it is stored under the URI and one parse is logged; without one: no result, and the cache (stale entry included) and log do not change |
| `Server.Server.EnsureAst` | src/server.ts:70-75 | a hit returns the cached tree and parses nothing; a miss behaves as `UpdateAst` |
| `Server.Server.EnsureAstTwice` | src/server.ts:70-75 | two `ensureAst` calls parse at most once, and the second returns what the first returned |
| `Server.Server.Resolve` | src/server.ts:78-80 | an open document always comes with the parse of its current text; a closed one comes with whatever stale tree is cached; the cache changes only on a miss for an open document |
| `Server.Server.RebuildAll` | src/server.ts:53-56 | keys and key order do not change; the parse log grows by exactly the open documents of the cached URIs, in key order |
| `Server.Server.ValidateDocument` | src/server.ts:217-220 | one publication, under `doc.uri`, holding the engine's diagnostics |
| `Server.Server.ValidateAll` | src/server.ts:207-216 | one publication per cached URI with an open document, in key order, against the cached tree; nothing is parsed |
| `Server.Server.OnInitialize` | src/server.ts:28-51 | records the client's related-information support; returns the fixed capabilities |
| `Server.Server.OnHover` | src/server.ts:77-84 | invalid request exactly when the document is not open, even if a stale tree is cached; otherwise the engine's hover on the current text |
| `Server.Server.OnReferences` | src/server.ts:86-93 | same rule, for the engine's references |
| `Server.Server.OnDefinition` | src/server.ts:95-102 | same rule, for the engine's definition |
| `Server.Server.OnCompletion` | src/server.ts:230-237 | same rule, for the engine's completions |
| `Server.Server.OnRenameRequest` | src/server.ts:174-183 | invalid request also when the engine produces no edit |
| `Server.Server.OnCodeAction` | src/server.ts:126-147 | invalid request when the document is not open; absent when the engine has no actions; otherwise the engine's commands, same number and order, each with the URI appended |
| `Server.Server.OnExecuteCommand` | src/server.ts:152-168 | missing or empty arguments change nothing; otherwise an edit is applied exactly when the named document is open and the engine, given the remaining arguments, returns one |
| `Server.Server.OnDidOpen` | src/server.ts:254 | the opened document is parsed once and its tree cached; a new URI is added last to the key order |
| `Server.Server.OnDidChangeContent` | src/server.ts:188-193 | exactly one parse and exactly one publication, under the document's URI, from the new tree; a new URI is added last to the key order |
| `Server.Server.OnDidChangeConfiguration` | src/server.ts:195-205 | a section replaces the settings wholesale, no section keeps them; each cached URI with an open document is parsed exactly once and validated exactly once; cached URIs without a document are skipped; since every open document is cached, every open document is parsed and validated exactly once |
| `Server.Server.DidOpen` | src/server.ts:22 | the store files the document, then open and content-change both run: two parses, one publication; a new URI is added last to the key order |
| `Server.Server.DidChange` | src/server.ts:22 | a full-text change to an open document replaces it and runs the content-change handler, keeping the key order; other changes do nothing |
| `Server.Server.DidClose` | src/server.ts:22 | the document leaves the store; the cache and its key order do not change |
| `Cli.CountTruthy` | src/cli.ts:48 | at most the number of values; zero exactly when every value is falsy |
| `Cli.CountTruthyIsOne` | src/cli.ts:48 | a count of one means exactly one value is truthy, and the other way round |
| `Cli.CountSetArgs` | src/cli.ts:41-48 | the count over `setArgs` is the number of truthy options |
| `Cli.CheckConnectionType` | src/cli.ts:41-55 | every exit has code 1; all-unset gives the "required" message (checked first); more than one set gives the "exactly one" message; exactly one set runs the server |
| `Cli.RunsOnExactlyOneOption` | src/cli.ts:41-55 | the server runs exactly when one of stdio, socket, node-ipc, pipe is truthy and the other three are falsy |
| `Cli.StartupExamples` | src/cli.ts:41-51 | no options, `--stdio --socket 5`, `--socket 0` and `--pipe ""` exit with code 1 and the matching message; `--socket 5` runs |

## Left out

- The engine's parsing, validation, hover, references, definition, completion, rename, code actions and command execution. They are function values, and nothing is assumed about what they compute. Being functions makes them deterministic, though: parsing the same document twice gives the same tree. That is why `RebuildAll` can promise an unchanged cache, where the source replaces each open document's tree with a freshly parsed object. The parse log records that the re-parse happened.
- Errors the engine throws. They propagate to the transport, and the model has no exceptions for them.
- The JSON-RPC transport: `connection.listen`, `createConnection`, and the `ResponseError` class beyond its code and message.
- Command-line parsing by yargs, and `--version` and `--help` (src/cli.ts:14-39, 54).
- The document store is the protocol library's, not this repository's, and `DidOpen`, `DidChange` and `DidClose` model only how it calls the server. They assume the library's full-sync behaviour: opening fires the open event and then the content-change event; a change keeps the last content change and is ignored for a document that is not open; closing only deletes. The library's error on a change without a version is not modelled.
- TagCommands: works on command values. The handler pushes onto the engine's command objects in place, so a command object the engine returned twice would get the URI twice. That aliasing is not captured.
- OnExecuteCommand: a popped argument that is not a string is treated as naming no document. The store's string coercion of such a key is not modelled. Popping also mutates the request's argument array in place; the model replaces the arguments with a value.
- OnDidChangeConfiguration: a `settings` payload of null or undefined makes the handler throw before it changes anything, and this is modelled as `ok == false`. A `dotLanguageServer` value that is truthy but not a settings object is not modelled.
- `maxNumberOfProblems`, `currentSettings` and `shouldSendDiagnosticRelatedInformation` are stored but never read, so no cap on diagnostics and no related-information payload shape are modelled.
- `onDidChangeWatchedFiles` only logs (src/server.ts:222-225). The colour handlers are commented out (src/server.ts:104-121). `cancelled` is never used (src/server.ts:256).
- Concurrency and cancellation. The handlers are single-threaded callbacks.
- src/smoke.test.ts is a test client that spawns the server, so it is not part of this model. src/types.ts only declares the shape of the settings record, which `DotLanguageServerSettings` reuses.
