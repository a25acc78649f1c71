/**
 * The session layer of the DOT language server (server.ts, `runServer`): the
 * document store, the per-document syntax-tree cache `astOfFile`, the current
 * settings, and the handlers the connection and the store call. Calls to the
 * engine's parser, published diagnostics and applied workspace edits are
 * recorded in logs, so that "how many times" can be stated.
 */
module Server {
  import opened Wrappers
  import opened Js
  import opened Protocol
  import opened Engine
  import opened Commands
  import opened Dispatch

  function Lookup<K, V>(m: map<K, V>, k: K): Option<V>
  {
    if k in m then Some(m[k]) else None
  }

  ghost predicate Distinct<T>(s: seq<T>)
  {
    forall i, j :: 0 <= i < j < |s| ==> s[i] != s[j]
  }

  /** The document store files every document under its own URI. */
  ghost predicate KeyedByUri(documents: map<Uri, TextDocument>)
  {
    forall u :: u in documents ==> documents[u].uri == u
  }

  /** The open documents among `keys`, in the order of `keys`. */
  function OpenDocuments(keys: seq<Uri>, documents: map<Uri, TextDocument>): seq<TextDocument>
  {
    if keys == [] then []
    else
      var k := keys[|keys| - 1];
      OpenDocuments(keys[..|keys| - 1], documents) + (if k in documents then [documents[k]] else [])
  }

  /** The diagnostics `validateAll` publishes for `keys`, validating each open document against its cached tree. */
  function Validations(service: LanguageService, keys: seq<Uri>, documents: map<Uri, TextDocument>,
                       cache: map<Uri, SourceFile>): seq<PublishDiagnosticsParams>
    requires forall i :: 0 <= i < |keys| ==> keys[i] in cache
  {
    if keys == [] then []
    else
      var k := keys[|keys| - 1];
      Validations(service, keys[..|keys| - 1], documents, cache)
      + (if k in documents
         then [PublishDiagnosticsParams(documents[k].uri, service.validateDocument(documents[k], cache[k]))]
         else [])
  }

  /** How many of `docs` have the URI `u`. */
  function CountUri(docs: seq<TextDocument>, u: Uri): nat
  {
    if docs == [] then 0
    else CountUri(docs[..|docs| - 1], u) + (if docs[|docs| - 1].uri == u then 1 else 0)
  }

  /**
   * A pass over distinct cache keys touches every key whose document is open
   * exactly once, and no other URI.
   */
  lemma {:induction false} OpenDocumentsOncePerKey(keys: seq<Uri>, documents: map<Uri, TextDocument>, u: Uri)
    requires Distinct(keys)
    requires KeyedByUri(documents)
    ensures CountUri(OpenDocuments(keys, documents), u) == if u in keys && u in documents then 1 else 0
  {
    if keys != [] {
      var init, k := keys[..|keys| - 1], keys[|keys| - 1];
      assert keys == init + [k];
      OpenDocumentsOncePerKey(init, documents, u);
      var tail := if k in documents then [documents[k]] else [];
      var docs := OpenDocuments(init, documents) + tail;
      if tail != [] {
        assert docs[..|docs| - 1] == OpenDocuments(init, documents);
      } else {
        assert docs == OpenDocuments(init, documents);
      }
      assert u in keys <==> u in init || u == k;
      assert k !in init;
    }
  }

  /** When every open document is among the keys, a pass over them touches each open document exactly once. */
  lemma EveryOpenDocumentOnce(keys: seq<Uri>, documents: map<Uri, TextDocument>)
    requires Distinct(keys)
    requires KeyedByUri(documents)
    requires forall u :: u in documents ==> u in keys
    ensures forall u :: u in documents ==> CountUri(OpenDocuments(keys, documents), u) == 1
  {
    forall u | u in documents
      ensures CountUri(OpenDocuments(keys, documents), u) == 1
    {
      OpenDocumentsOncePerKey(keys, documents, u);
    }
  }

  /**
   * Once every open cached document's tree is its current parse, the
   * diagnostics of a validation pass are the engine's verdict on the current
   * text of each open document, one publication per document, in key order.
   */
  lemma {:induction false} ValidationsAreFresh(service: LanguageService, keys: seq<Uri>,
                                              documents: map<Uri, TextDocument>, cache: map<Uri, SourceFile>)
    requires forall i :: 0 <= i < |keys| ==> keys[i] in cache
    requires forall u :: u in cache && u in documents ==> cache[u] == service.parseDocument(documents[u])
    ensures var docs := OpenDocuments(keys, documents);
            var sent := Validations(service, keys, documents, cache);
            |sent| == |docs| &&
            forall i :: 0 <= i < |docs| ==>
              sent[i] == PublishDiagnosticsParams(docs[i].uri,
                                                  service.validateDocument(docs[i], service.parseDocument(docs[i])))
  {
    if keys != [] {
      ValidationsAreFresh(service, keys[..|keys| - 1], documents, cache);
    }
  }

  class Server {
    const service: LanguageService
    /** `lsp.TextDocuments`: the open documents by URI. */
    var documents: map<Uri, TextDocument>
    /** The syntax-tree cache. */
    var astOfFile: map<Uri, SourceFile>
    /** The keys of `astOfFile` in insertion order, the order a JavaScript `Map` iterates them. */
    var keyOrder: seq<Uri>
    var currentSettings: DotLanguageServerSettings
    var shouldSendDiagnosticRelatedInformation: bool
    /** Every document handed to the engine's parser, in call order. */
    var parsed: seq<TextDocument>
    /** Every `sendDiagnostics` notification, in order. */
    var diagnosticsSent: seq<PublishDiagnosticsParams>
    /** Every edit passed to `workspace.applyEdit`, in order. */
    var editsApplied: seq<WorkspaceEdit>

    ghost predicate CacheValid()
      reads this
    {
      Distinct(keyOrder) && forall u :: u in astOfFile <==> u in keyOrder
    }

    /**
     * The cache invariant: every cached tree of an open document is the parse
     * of that document's current text. A closed document's tree may linger.
     */
    ghost predicate Coherent()
      reads this
    {
      forall u :: u in astOfFile && u in documents ==> astOfFile[u] == service.parseDocument(documents[u])
    }

    /** Every open document has a tree: the open handler always caches one, and nothing evicts it. */
    ghost predicate OpenCached()
      reads this
    {
      forall u :: u in documents ==> u in astOfFile
    }

    ghost predicate Valid()
      reads this
    {
      CacheValid() && KeyedByUri(documents) && Coherent() && OpenCached()
    }

    /**
     * The invariant while the store has just replaced the document under `uri`
     * and the handler has not yet re-parsed it.
     */
    ghost predicate ValidExcept(uri: Uri)
      reads this
    {
      && CacheValid() && KeyedByUri(documents)
      && (forall u :: u in astOfFile && u in documents && u != uri ==> astOfFile[u] == service.parseDocument(documents[u]))
      && (forall u :: u in documents && u != uri ==> u in astOfFile)
    }

    /**
     * What resolving `uri` (`ensureAst(uri, documents.get(uri))`) did to the
     * cache: a cached or unknown URI leaves it as it was; an open document
     * without a tree is parsed once and its tree added.
     */
    ghost predicate ResolvedFrom(uri: Uri, cache0: map<Uri, SourceFile>, order0: seq<Uri>, parsed0: seq<TextDocument>)
      reads this
    {
      if uri in cache0 || uri !in documents then
        astOfFile == cache0 && keyOrder == order0 && parsed == parsed0
      else
        && astOfFile == cache0[uri := service.parseDocument(documents[uri])]
        && keyOrder == order0 + [uri]
        && parsed == parsed0 + [documents[uri]]
    }

    /** The server as `runServer` sets it up: nothing open, nothing cached, default settings. */
    constructor (service: LanguageService)
      ensures Valid()
      ensures this.service == service
      ensures documents == map[] && astOfFile == map[] && keyOrder == []
      ensures currentSettings == DefaultSettings && !shouldSendDiagnosticRelatedInformation
      ensures parsed == [] && diagnosticsSent == [] && editsApplied == []
    {
      this.service := service;
      documents := map[];
      astOfFile := map[];
      keyOrder := [];
      currentSettings := DefaultSettings;
      shouldSendDiagnosticRelatedInformation := false;
      parsed := [];
      diagnosticsSent := [];
      editsApplied := [];
    }

    /**
     * `updateAst`: parses `doc`, or the stored document when none is given, and
     * stores the tree under `uri`. Without a document it returns nothing and
     * leaves the cache, a stale entry included, as it was.
     */
    method UpdateAst(uri: Uri, doc: Option<TextDocument>) returns (ast: Option<SourceFile>)
      requires CacheValid()
      modifies this`astOfFile, this`keyOrder, this`parsed
      ensures CacheValid()
      ensures var d := if doc.Some? then doc else Lookup(documents, uri);
              if d.Some? then
                && ast == Some(service.parseDocument(d.value))
                && astOfFile == old(astOfFile)[uri := ast.value]
                && parsed == old(parsed) + [d.value]
              else
                ast == None && astOfFile == old(astOfFile) && parsed == old(parsed)
      ensures keyOrder == if uri in astOfFile && uri !in old(astOfFile) then old(keyOrder) + [uri]
                          else old(keyOrder)
    {
      var d := doc;
      if d.None? {
        d := Lookup(documents, uri);
      }
      if d.Some? {
        var tree := service.parseDocument(d.value);
        parsed := parsed + [d.value];
        if uri !in astOfFile {
          keyOrder := keyOrder + [uri];
        }
        astOfFile := astOfFile[uri := tree];
        ast := Some(tree);
      } else {
        ast := None;
      }
    }

    /**
     * `ensureAst`: a cached tree is returned without calling the parser; only
     * on a miss does it fall back to `updateAst`.
     */
    method EnsureAst(uri: Uri, doc: Option<TextDocument>) returns (ast: Option<SourceFile>)
      requires CacheValid()
      modifies this`astOfFile, this`keyOrder, this`parsed
      ensures CacheValid()
      ensures uri in old(astOfFile) ==>
                && ast == Some(old(astOfFile)[uri])
                && astOfFile == old(astOfFile) && keyOrder == old(keyOrder) && parsed == old(parsed)
      ensures uri !in old(astOfFile) ==>
                var d := if doc.Some? then doc else Lookup(documents, uri);
                if d.Some? then
                  && ast == Some(service.parseDocument(d.value))
                  && astOfFile == old(astOfFile)[uri := ast.value]
                  && keyOrder == old(keyOrder) + [uri]
                  && parsed == old(parsed) + [d.value]
                else
                  && ast == None
                  && astOfFile == old(astOfFile) && keyOrder == old(keyOrder) && parsed == old(parsed)
    {
      ast := Lookup(astOfFile, uri);
      if ast.None? {
        ast := UpdateAst(uri, doc);
      }
    }

    /** Calling `ensureAst` twice for the same URI parses at most once, and both calls agree once a tree exists. */
    method EnsureAstTwice(uri: Uri, doc: Option<TextDocument>) returns (first: Option<SourceFile>, second: Option<SourceFile>)
      requires CacheValid()
      modifies this`astOfFile, this`keyOrder, this`parsed
      ensures CacheValid()
      ensures |parsed| <= |old(parsed)| + 1
      ensures second == first
    {
      first := EnsureAst(uri, doc);
      second := EnsureAst(uri, doc);
    }

    /**
     * The prologue of every query handler: `documents.get(uri)`, then
     * `ensureAst(uri, doc)`. An open document always comes with the parse of
     * its current text; a closed one may come with a stale tree.
     */
    method Resolve(uri: Uri) returns (doc: Option<TextDocument>, ast: Option<SourceFile>)
      requires Valid()
      modifies this`astOfFile, this`keyOrder, this`parsed
      ensures Valid()
      ensures ResolvedFrom(uri, old(astOfFile), old(keyOrder), old(parsed))
      ensures doc == Lookup(documents, uri)
      ensures doc.Some? ==> ast == Some(service.parseDocument(doc.value))
      ensures doc.None? ==> ast == Lookup(astOfFile, uri)
    {
      doc := Lookup(documents, uri);
      ast := EnsureAst(uri, doc);
    }

    /** `rebuildAll`: re-parses every cached URI whose document is open, in key order; the keys stay as they were. */
    method RebuildAll()
      requires Valid()
      modifies this`astOfFile, this`keyOrder, this`parsed
      ensures Valid()
      ensures astOfFile == old(astOfFile) && keyOrder == old(keyOrder)
      ensures parsed == old(parsed) + OpenDocuments(old(keyOrder), documents)
    {
      var keys := keyOrder;
      for i := 0 to |keys|
        invariant Valid()
        invariant astOfFile == old(astOfFile) && keyOrder == keys
        invariant parsed == old(parsed) + OpenDocuments(keys[..i], documents)
      {
        assert keys[..i + 1][..i] == keys[..i];
        assert keys[i] in astOfFile;
        var _ := UpdateAst(keys[i], None);
      }
      assert keys[..|keys|] == keys;
    }

    /** `validateDocument`: publishes the engine's diagnostics for `doc`, under `doc.uri`. */
    method ValidateDocument(doc: TextDocument, tree: SourceFile)
      modifies this`diagnosticsSent
      ensures diagnosticsSent == old(diagnosticsSent) + [PublishDiagnosticsParams(doc.uri, service.validateDocument(doc, tree))]
    {
      diagnosticsSent := diagnosticsSent + [PublishDiagnosticsParams(doc.uri, service.validateDocument(doc, tree))];
    }

    /** `validateAll`: publishes diagnostics for every cached URI whose document is open, in key order, without parsing. */
    method ValidateAll()
      requires Valid()
      modifies this`astOfFile, this`keyOrder, this`parsed, this`diagnosticsSent
      ensures Valid()
      ensures astOfFile == old(astOfFile) && keyOrder == old(keyOrder) && parsed == old(parsed)
      ensures diagnosticsSent == old(diagnosticsSent) + Validations(service, keyOrder, documents, astOfFile)
    {
      var keys := keyOrder;
      for i := 0 to |keys|
        invariant Valid()
        invariant astOfFile == old(astOfFile) && keyOrder == keys && parsed == old(parsed)
        invariant diagnosticsSent == old(diagnosticsSent) + Validations(service, keys[..i], documents, astOfFile)
      {
        assert keys[..i + 1][..i] == keys[..i];
        assert keys[i] in astOfFile;
        var doc := Lookup(documents, keys[i]);
        if doc.Some? {
          var ast := EnsureAst(keys[i], doc);
          if ast.Some? {
            ValidateDocument(doc.value, ast.value);
          }
        }
      }
      assert keys[..|keys|] == keys;
    }

    /** `onInitialize`: records the client's related-information support and announces the capabilities. */
    method OnInitialize(params: InitializeParams) returns (result: InitializeResult)
      modifies this`shouldSendDiagnosticRelatedInformation
      ensures shouldSendDiagnosticRelatedInformation == SupportsRelatedInformation(params.capabilities)
      ensures result == InitializeResult(Capabilities(service.getAvailableCommands))
    {
      shouldSendDiagnosticRelatedInformation := SupportsRelatedInformation(params.capabilities);
      result := InitializeResult(Capabilities(service.getAvailableCommands));
    }

    method OnHover(uri: Uri, position: Position) returns (r: Response<Option<Hover>>)
      requires Valid()
      modifies this`astOfFile, this`keyOrder, this`parsed
      ensures Valid()
      ensures ResolvedFrom(uri, old(astOfFile), old(keyOrder), old(parsed))
      ensures r == if uri in documents
                   then Result(service.hover(documents[uri], service.parseDocument(documents[uri]), position))
                   else Error(InvalidRequest)
    {
      var doc, ast := Resolve(uri);
      r := Answer(doc, ast, (d, a) => service.hover(d, a, position));
    }

    method OnReferences(uri: Uri, position: Position, context: ReferenceContext) returns (r: Response<seq<Location>>)
      requires Valid()
      modifies this`astOfFile, this`keyOrder, this`parsed
      ensures Valid()
      ensures ResolvedFrom(uri, old(astOfFile), old(keyOrder), old(parsed))
      ensures r == if uri in documents
                   then Result(service.findReferences(documents[uri], service.parseDocument(documents[uri]), position, context))
                   else Error(InvalidRequest)
    {
      var doc, ast := Resolve(uri);
      r := Answer(doc, ast, (d, a) => service.findReferences(d, a, position, context));
    }

    method OnDefinition(uri: Uri, position: Position) returns (r: Response<Option<Definition>>)
      requires Valid()
      modifies this`astOfFile, this`keyOrder, this`parsed
      ensures Valid()
      ensures ResolvedFrom(uri, old(astOfFile), old(keyOrder), old(parsed))
      ensures r == if uri in documents
                   then Result(service.findDefinition(documents[uri], service.parseDocument(documents[uri]), position))
                   else Error(InvalidRequest)
    {
      var doc, ast := Resolve(uri);
      r := Answer(doc, ast, (d, a) => service.findDefinition(d, a, position));
    }

    method OnCompletion(uri: Uri, position: Position) returns (r: Response<seq<CompletionItem>>)
      requires Valid()
      modifies this`astOfFile, this`keyOrder, this`parsed
      ensures Valid()
      ensures ResolvedFrom(uri, old(astOfFile), old(keyOrder), old(parsed))
      ensures r == if uri in documents
                   then Result(service.getCompletions(documents[uri], service.parseDocument(documents[uri]), position))
                   else Error(InvalidRequest)
    {
      var doc, ast := Resolve(uri);
      r := Answer(doc, ast, (d, a) => service.getCompletions(d, a, position));
    }

    /** `onRenameRequest`: an invalid request also when the engine produces no edit. */
    method OnRenameRequest(uri: Uri, position: Position, newName: string) returns (r: Response<WorkspaceEdit>)
      requires Valid()
      modifies this`astOfFile, this`keyOrder, this`parsed
      ensures Valid()
      ensures ResolvedFrom(uri, old(astOfFile), old(keyOrder), old(parsed))
      ensures r == if uri in documents && service.renameSymbol(documents[uri], service.parseDocument(documents[uri]), position, newName).Some?
                   then Result(service.renameSymbol(documents[uri], service.parseDocument(documents[uri]), position, newName).value)
                   else Error(InvalidRequest)
    {
      var doc, ast := Resolve(uri);
      r := RenameAnswer(doc, ast, (d, a) => service.renameSymbol(d, a, position, newName));
    }

    /**
     * `onCodeAction`: the engine's commands, each with the document's URI
     * appended to its arguments; absent when the engine has none.
     */
    method OnCodeAction(uri: Uri, range: Range, context: CodeActionContext) returns (r: Response<Option<seq<Command>>>)
      requires Valid()
      modifies this`astOfFile, this`keyOrder, this`parsed
      ensures Valid()
      ensures ResolvedFrom(uri, old(astOfFile), old(keyOrder), old(parsed))
      ensures uri !in documents ==> r == Error(InvalidRequest)
      ensures uri in documents ==>
                var actions := service.getCodeActions(documents[uri], service.parseDocument(documents[uri]), range, context);
                && r.Result?
                && r.value.Some? == actions.Some?
                && (actions.Some? ==>
                      && |r.value.value| == |actions.value|
                      && forall i :: 0 <= i < |actions.value| ==> r.value.value[i] == Tag(actions.value[i], uri))
    {
      var doc, ast := Resolve(uri);
      if doc.Some? && ast.Some? {
        var actions := service.getCodeActions(doc.value, ast.value, range, context);
        if actions.Some? {
          var tagged := TagCommands(actions.value, uri);
          r := Result(Some(tagged));
        } else {
          r := Result(None);
        }
      } else {
        r := Error(InvalidRequest);
      }
    }

    /**
     * `onExecuteCommand`: without arguments nothing happens. Otherwise the last
     * argument names the document; when it resolves, the engine runs the
     * command on the remaining arguments and its edit, if any, is applied.
     */
    method OnExecuteCommand(params: ExecuteCommandParams)
      requires Valid()
      modifies this`astOfFile, this`keyOrder, this`parsed, this`editsApplied
      ensures Valid()
      ensures Target(params.arguments).None? ==>
                && astOfFile == old(astOfFile) && keyOrder == old(keyOrder)
                && parsed == old(parsed) && editsApplied == old(editsApplied)
      ensures Target(params.arguments).Some? ==>
                var uri := Target(params.arguments).value;
                && ResolvedFrom(uri, old(astOfFile), old(keyOrder), old(parsed))
                && editsApplied == old(editsApplied) +
                     if uri in documents
                     then ToSeq(service.executeCommand(documents[uri], service.parseDocument(documents[uri]),
                                                       params.(arguments := PopUri(params.arguments).value.rest)))
                     else []
    {
      var popped := PopUri(params.arguments);
      if popped.None? {
        return;
      }
      if !popped.value.uri.Str? {
        // `documents.get` finds nothing under a non-string key, and neither does the cache.
        return;
      }
      var uri := popped.value.uri.s;
      var doc, ast := Resolve(uri);
      if doc.Some? && ast.Some? {
        var request := params.(arguments := popped.value.rest);
        var edit := service.executeCommand(doc.value, ast.value, request);
        if edit.Some? {
          editsApplied := editsApplied + [edit.value];
        }
      }
    }

    /** `onDidOpen`: parses the opened document and caches its tree; publishes nothing. */
    method OnDidOpen(doc: TextDocument)
      requires ValidExcept(doc.uri) && doc.uri in documents && documents[doc.uri] == doc
      modifies this`astOfFile, this`keyOrder, this`parsed
      ensures Valid()
      ensures astOfFile == old(astOfFile)[doc.uri := service.parseDocument(doc)]
      ensures keyOrder == if doc.uri in old(astOfFile) then old(keyOrder) else old(keyOrder) + [doc.uri]
      ensures parsed == old(parsed) + [doc]
    {
      var _ := UpdateAst(doc.uri, Some(doc));
    }

    /** `onDidChangeContent`: exactly one parse and exactly one publication, under the document's own URI. */
    method OnDidChangeContent(doc: TextDocument)
      requires ValidExcept(doc.uri) && doc.uri in documents && documents[doc.uri] == doc
      modifies this`astOfFile, this`keyOrder, this`parsed, this`diagnosticsSent
      ensures Valid()
      ensures astOfFile == old(astOfFile)[doc.uri := service.parseDocument(doc)]
      ensures keyOrder == if doc.uri in old(astOfFile) then old(keyOrder) else old(keyOrder) + [doc.uri]
      ensures parsed == old(parsed) + [doc]
      ensures diagnosticsSent == old(diagnosticsSent)
                                 + [PublishDiagnosticsParams(doc.uri, service.validateDocument(doc, service.parseDocument(doc)))]
    {
      var ast := UpdateAst(doc.uri, Some(doc));
      if ast.None? {
        assert false;  // "This cannot happen": a given document is always parsed
        return;
      }
      ValidateDocument(doc, ast.value);
    }

    /**
     * `onDidChangeConfiguration`: a `dotLanguageServer` section replaces the
     * settings wholesale, its absence keeps them; then every cached URI with an
     * open document is parsed once and validated once, in key order. A missing
     * `settings` object makes the handler throw before it changes anything.
     */
    method OnDidChangeConfiguration(settings: ConfigurationSettings) returns (ok: bool)
      requires Valid()
      modifies this`currentSettings, this`astOfFile, this`keyOrder, this`parsed, this`diagnosticsSent
      ensures Valid()
      ensures ok == settings.SettingsObject?
      ensures !ok ==>
                && currentSettings == old(currentSettings) && astOfFile == old(astOfFile) && keyOrder == old(keyOrder)
                && parsed == old(parsed) && diagnosticsSent == old(diagnosticsSent)
      ensures ok ==>
                && currentSettings == (if settings.dotLanguageServer.Some? then settings.dotLanguageServer.value
                                       else old(currentSettings))
                && astOfFile == old(astOfFile) && keyOrder == old(keyOrder)
                && parsed == old(parsed) + OpenDocuments(old(keyOrder), documents)
      ensures ok ==>
                var docs := OpenDocuments(old(keyOrder), documents);
                && |diagnosticsSent| == |old(diagnosticsSent)| + |docs|
                && diagnosticsSent[..|old(diagnosticsSent)|] == old(diagnosticsSent)
                && forall i :: 0 <= i < |docs| ==>
                     diagnosticsSent[|old(diagnosticsSent)| + i]
                     == PublishDiagnosticsParams(docs[i].uri, service.validateDocument(docs[i], service.parseDocument(docs[i])))
      ensures ok ==> forall u :: u in documents ==> CountUri(OpenDocuments(old(keyOrder), documents), u) == 1
    {
      if settings.NoSettings? {
        return false;  // reading `dotLanguageServer` of null or undefined throws
      }
      if settings.dotLanguageServer.Some? {
        currentSettings := settings.dotLanguageServer.value;
      }
      RebuildAll();
      ghost var before := diagnosticsSent;
      ValidateAll();
      ValidationsAreFresh(service, keyOrder, documents, astOfFile);
      assert diagnosticsSent[..|before|] == before;
      EveryOpenDocumentOnce(keyOrder, documents);
      return true;
    }

    /**
     * The store receiving `didOpen`: the document is stored, then the store
     * fires its open event and its content-change event, in that order.
     */
    method DidOpen(doc: TextDocument)
      requires Valid()
      modifies this`documents, this`astOfFile, this`keyOrder, this`parsed, this`diagnosticsSent
      ensures Valid()
      ensures documents == old(documents)[doc.uri := doc]
      ensures astOfFile == old(astOfFile)[doc.uri := service.parseDocument(doc)]
      ensures keyOrder == if doc.uri in old(astOfFile) then old(keyOrder) else old(keyOrder) + [doc.uri]
      ensures parsed == old(parsed) + [doc, doc]
      ensures diagnosticsSent == old(diagnosticsSent)
                                 + [PublishDiagnosticsParams(doc.uri, service.validateDocument(doc, service.parseDocument(doc)))]
    {
      documents := documents[doc.uri := doc];
      OnDidOpen(doc);
      OnDidChangeContent(doc);
    }

    /**
     * The store receiving a full-sync `didChange`: the last change's text
     * replaces the document's, then its content-change event fires. A change
     * for a document that is not open, or without changes, is ignored.
     */
    method DidChange(uri: Uri, version: int, changes: seq<string>)
      requires Valid()
      modifies this`documents, this`astOfFile, this`keyOrder, this`parsed, this`diagnosticsSent
      ensures Valid()
      ensures changes == [] || uri !in old(documents) ==>
                && documents == old(documents) && astOfFile == old(astOfFile) && keyOrder == old(keyOrder)
                && parsed == old(parsed) && diagnosticsSent == old(diagnosticsSent)
      ensures changes != [] && uri in old(documents) ==>
                var doc := TextDocument(uri, version, changes[|changes| - 1]);
                && documents == old(documents)[uri := doc]
                && astOfFile == old(astOfFile)[uri := service.parseDocument(doc)]
                && keyOrder == old(keyOrder)
                && parsed == old(parsed) + [doc]
                && diagnosticsSent == old(diagnosticsSent)
                                      + [PublishDiagnosticsParams(uri, service.validateDocument(doc, service.parseDocument(doc)))]
    {
      if changes == [] || uri !in documents {
        return;
      }
      var doc := TextDocument(uri, version, changes[|changes| - 1]);
      documents := documents[uri := doc];
      OnDidChangeContent(doc);
    }

    /** The store receiving `didClose`: the document leaves the store; the server has no close handler, so its tree stays cached. */
    method DidClose(uri: Uri)
      requires Valid()
      modifies this`documents
      ensures Valid()
      ensures documents == old(documents) - {uri}
      ensures astOfFile == old(astOfFile) && keyOrder == old(keyOrder)
    {
      documents := documents - {uri};
    }
  }
}
