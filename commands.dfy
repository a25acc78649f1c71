/**
 * Threading a document's URI through the arguments of code-action commands:
 * the code-action handler appends the URI to every command it returns, and the
 * execute-command handler pops it off again (server.ts, onCodeAction and
 * onExecuteCommand).
 */
module Commands {
  import opened Wrappers
  import opened Js
  import opened Protocol

  /** The arguments of an optional argument array, none when it is absent. */
  function ArgsOrEmpty(arguments: Option<seq<JsValue>>): seq<JsValue>
  {
    match arguments
    case Some(args) => args
    case None => []
  }

  /** The arguments a command carries after the URI is appended to them. */
  function WithUri(arguments: Option<seq<JsValue>>, uri: Uri): (r: seq<JsValue>)
    ensures |r| == |ArgsOrEmpty(arguments)| + 1
    ensures r[|r| - 1] == Str(uri)
    ensures r[..|r| - 1] == ArgsOrEmpty(arguments)
  {
    match arguments
    case Some(args) => args + [Str(uri)]
    case None => [Str(uri)]
  }

  /** A command as the code-action handler returns it: same title and command, URI last. */
  function Tag(c: Command, uri: Uri): Command
  {
    c.(arguments := Some(WithUri(c.arguments, uri)))
  }

  /**
   * Appends `uri` to the arguments of every command, keeping the number and the
   * order of the commands; a command without arguments gets `[uri]`.
   */
  method TagCommands(commands: seq<Command>, uri: Uri) returns (tagged: seq<Command>)
    ensures |tagged| == |commands|
    ensures forall i :: 0 <= i < |commands| ==> tagged[i] == Tag(commands[i], uri)
  {
    tagged := [];
    for i := 0 to |commands|
      invariant |tagged| == i
      invariant forall k :: 0 <= k < i ==> tagged[k] == Tag(commands[k], uri)
    {
      var command := commands[i];
      if command.arguments.Some? {
        command := command.(arguments := Some(command.arguments.value + [Str(uri)]));
      } else {
        command := command.(arguments := Some([Str(uri)]));
      }
      tagged := tagged + [command];
    }
  }

  /**
   * What the execute-command handler takes out of the request's arguments: the
   * last one, taken to be the URI, and the arguments left before it, absent
   * when none are left.
   */
  datatype Popped = Popped(uri: JsValue, rest: Option<seq<JsValue>>)

  /** Nothing is popped when the arguments are absent or empty; the handler then returns at once. */
  function PopUri(arguments: Option<seq<JsValue>>): (r: Option<Popped>)
    ensures r.None? <==> ArgsOrEmpty(arguments) == []
    ensures r.Some? ==> ArgsOrEmpty(arguments) == ArgsOrEmpty(r.value.rest) + [r.value.uri]
    ensures r.Some? && r.value.rest.Some? ==> r.value.rest.value != []
  {
    match arguments
    case None => None
    case Some(args) =>
      if |args| < 1 then None
      else
        var remaining := args[..|args| - 1];
        Some(Popped(args[|args| - 1], if |remaining| == 0 then None else Some(remaining)))
  }

  /** The URI named by the popped argument; a value that is not a string names no document. */
  function Target(arguments: Option<seq<JsValue>>): (r: Option<Uri>)
    ensures r.Some? <==> PopUri(arguments).Some? && PopUri(arguments).value.uri.Str?
    ensures r.Some? ==> PopUri(arguments).value.uri == Str(r.value)
  {
    match PopUri(arguments)
    case Some(Popped(Str(uri), _)) => Some(uri)
    case _ => None
  }

  /**
   * Round trip: executing a command the code-action handler returned recovers
   * the document's URI and the command's own arguments, in order; an original
   * empty argument array comes back absent.
   */
  lemma CodeActionRoundTrip(c: Command, uri: Uri)
    ensures PopUri(Tag(c, uri).arguments)
            == Some(Popped(Str(uri), if ArgsOrEmpty(c.arguments) == [] then None else c.arguments))
    ensures Target(Tag(c, uri).arguments) == Some(uri)
  {
    var args := WithUri(c.arguments, uri);
    assert args[..|args| - 1] == ArgsOrEmpty(c.arguments);
  }

  /**
   * Whatever the engine's own arguments are, the last argument after tagging is
   * the URI the code-action handler appended, so a trailing string argument of
   * the engine's is never mistaken for the document.
   */
  lemma TaggedCommandsTargetDocument(commands: seq<Command>, tagged: seq<Command>, uri: Uri)
    requires |tagged| == |commands|
    requires forall i :: 0 <= i < |commands| ==> tagged[i] == Tag(commands[i], uri)
    ensures forall i :: 0 <= i < |tagged| ==> Target(tagged[i].arguments) == Some(uri)
  {
    forall i | 0 <= i < |tagged|
      ensures Target(tagged[i].arguments) == Some(uri)
    {
      CodeActionRoundTrip(commands[i], uri);
    }
  }
}
