/**
 * The command line's transport check (cli.ts): exactly one of `--stdio`,
 * `--socket`, `--node-ipc` and `--pipe` must be set, where a falsy value
 * counts as unset. Printing to standard error and exiting become the
 * returned outcome.
 */
module Cli {
  import opened Js

  /** The options yargs hands back; each is whatever value the command line gave, or undefined. */
  datatype Argv = Argv(stdio: JsValue, nodeIpc: JsValue, socket: JsValue, pipe: JsValue)

  /** Either the server is started on the connection, or the process exits with a code and a message. */
  datatype Startup = RunServer | Exit(code: int, message: string)

  const ConnectionTypeRequired :=
    "Connection type required (stdio, node-ipc, socket, pipe). Refer to --help for more details."
  const ExactlyOneConnectionType :=
    "You can only set exactly one connection type (stdio, node-ipc, socket, pipe). Refer to --help for more details."

  /** `setArgs`, in the order cli.ts lists them. */
  function SetArgs(argv: Argv): seq<JsValue>
  {
    [argv.stdio, argv.socket, argv.nodeIpc, argv.pipe]
  }

  /** `values.filter(a => !!a).length`. */
  function CountTruthy(values: seq<JsValue>): (n: nat)
    ensures n <= |values|
    ensures n == 0 <==> forall i :: 0 <= i < |values| ==> !Truthy(values[i])
  {
    if values == [] then 0
    else CountTruthy(values[..|values| - 1]) + (if Truthy(values[|values| - 1]) then 1 else 0)
  }

  /** Exactly one of the values is truthy: an index `i` whose value is truthy while every other value is falsy. */
  ghost predicate ExactlyOneTruthy(values: seq<JsValue>)
  {
    exists i :: 0 <= i < |values| && Truthy(values[i]) && forall j :: 0 <= j < |values| && j != i ==> !Truthy(values[j])
  }

  /** Counting the truthy values is the same as asking for exactly one truthy value. */
  lemma {:induction false} CountTruthyIsOne(values: seq<JsValue>)
    ensures CountTruthy(values) == 1 <==> ExactlyOneTruthy(values)
  {
    if values != [] {
      var init, last := values[..|values| - 1], values[|values| - 1];
      CountTruthyIsOne(init);
      if CountTruthy(values) == 1 {
        if Truthy(last) {
          forall j | 0 <= j < |values| && j != |values| - 1 ensures !Truthy(values[j]) {
            assert values[j] == init[j];
          }
          assert ExactlyOneTruthy(values);
        } else {
          var i :| 0 <= i < |init| && Truthy(init[i]) && forall j :: 0 <= j < |init| && j != i ==> !Truthy(init[j]);
          forall j | 0 <= j < |values| && j != i ensures !Truthy(values[j]) {
            if j < |init| { assert values[j] == init[j]; }
          }
          assert values[i] == init[i];
          assert ExactlyOneTruthy(values);
        }
      }
      if ExactlyOneTruthy(values) {
        var i :| 0 <= i < |values| && Truthy(values[i]) && forall j :: 0 <= j < |values| && j != i ==> !Truthy(values[j]);
        if i == |values| - 1 {
          forall j | 0 <= j < |init| ensures !Truthy(init[j]) {
            assert init[j] == values[j];
          }
        } else {
          forall j | 0 <= j < |init| && j != i ensures !Truthy(init[j]) {
            assert init[j] == values[j];
          }
          assert init[i] == values[i];
          assert ExactlyOneTruthy(init);
        }
      }
    }
  }

  /** The count over `setArgs`, option by option. */
  lemma CountSetArgs(argv: Argv)
    ensures CountTruthy(SetArgs(argv))
            == (if Truthy(argv.stdio) then 1 else 0) + (if Truthy(argv.socket) then 1 else 0)
               + (if Truthy(argv.nodeIpc) then 1 else 0) + (if Truthy(argv.pipe) then 1 else 0)
  {
    var s1, s2, s3 := [argv.stdio], [argv.stdio, argv.socket], [argv.stdio, argv.socket, argv.nodeIpc];
    assert s1[..0] == [] && s2[..1] == s1 && s3[..2] == s2 && SetArgs(argv)[..3] == s3;
    assert CountTruthy(s1) == (if Truthy(argv.stdio) then 1 else 0);
    assert CountTruthy(s2) == CountTruthy(s1) + (if Truthy(argv.socket) then 1 else 0);
    assert CountTruthy(s3) == CountTruthy(s2) + (if Truthy(argv.nodeIpc) then 1 else 0);
  }

  /**
   * The startup decision of cli.ts: all unset exits with the "required"
   * message, which is checked first; more than one set exits with the
   * "exactly one" message; exactly one set goes on to run the server.
   */
  function CheckConnectionType(argv: Argv): (r: Startup)
    ensures r.Exit? ==> r.code == 1
    ensures r == Exit(1, ConnectionTypeRequired) <==> forall i :: 0 <= i < 4 ==> !Truthy(SetArgs(argv)[i])
    ensures r == Exit(1, ExactlyOneConnectionType) <==> CountTruthy(SetArgs(argv)) > 1
    ensures r == RunServer <==> CountTruthy(SetArgs(argv)) == 1
  {
    var setArgs := SetArgs(argv);
    if forall a <- setArgs :: !Truthy(a) then Exit(1, ConnectionTypeRequired)
    else if CountTruthy(setArgs) != 1 then Exit(1, ExactlyOneConnectionType)
    else RunServer
  }

  /**
   * The same decision stated per option: the server runs exactly when one
   * option is truthy and the other three are falsy.
   */
  lemma RunsOnExactlyOneOption(argv: Argv)
    ensures CheckConnectionType(argv) == RunServer <==>
              || (Truthy(argv.stdio) && !Truthy(argv.socket) && !Truthy(argv.nodeIpc) && !Truthy(argv.pipe))
              || (!Truthy(argv.stdio) && Truthy(argv.socket) && !Truthy(argv.nodeIpc) && !Truthy(argv.pipe))
              || (!Truthy(argv.stdio) && !Truthy(argv.socket) && Truthy(argv.nodeIpc) && !Truthy(argv.pipe))
              || (!Truthy(argv.stdio) && !Truthy(argv.socket) && !Truthy(argv.nodeIpc) && Truthy(argv.pipe))
  {
    CountSetArgs(argv);
  }

  /**
   * Concrete command lines: none set; `--stdio --socket 5`; `--socket 5`;
   * `--socket 0` and `--pipe ""`, whose falsy values count as unset.
   */
  lemma StartupExamples()
    ensures CheckConnectionType(Argv(Undefined, Undefined, Undefined, Undefined)) == Exit(1, ConnectionTypeRequired)
    ensures CheckConnectionType(Argv(Bool(true), Undefined, Number(5.0), Undefined)) == Exit(1, ExactlyOneConnectionType)
    ensures CheckConnectionType(Argv(Undefined, Undefined, Number(5.0), Undefined)) == RunServer
    ensures CheckConnectionType(Argv(Undefined, Undefined, Number(0.0), Undefined)) == Exit(1, ConnectionTypeRequired)
    ensures CheckConnectionType(Argv(Undefined, Undefined, Undefined, Str(""))) == Exit(1, ConnectionTypeRequired)
  {
    CountSetArgs(Argv(Undefined, Undefined, Undefined, Undefined));
    CountSetArgs(Argv(Bool(true), Undefined, Number(5.0), Undefined));
    CountSetArgs(Argv(Undefined, Undefined, Number(5.0), Undefined));
    CountSetArgs(Argv(Undefined, Undefined, Number(0.0), Undefined));
    CountSetArgs(Argv(Undefined, Undefined, Undefined, Str("")));
  }
}
