/**
 * `watchProcess(processName, inspect)` of `src/watch-process.js`: checks
 * that a Node process of the application can be run from the build
 * directory, then forks it in watch mode. The configuration file's content
 * and the set of existing paths are given; forking is the `Launch` outcome.
 */
module WatchProcess {
  import opened Wrappers
  import Paths
  import opened Utils

  /** The `clients` field of the parsed configuration. */
  datatype ClientsField =
    | Undefined                                     // no `clients` key
    | Null                                          // `clients: null`
    | NotAnObject                                   // a number, boolean or string: no property named after a process
    | Declared(clients: map<string, ClientDescription>)

  /** `config/application.json` as the process reads it. */
  datatype ConfigRead =
    | Unreadable                 // missing file, or not JSON5, or `null`
    | Parsed(clients: ClientsField)

  datatype WatchOutcome =
    | Launch(path: string, execArgv: seq<string>, stdio: string)  // `fork(path, [], { stdio, execArgv })`
    | Exit(status: int, message: string)                          // message logged, then `process.exit`
    | Thrown(message: string)                                     // an uncaught TypeError

  const InvalidConfigMessage: string := "[@soundworks/devtools] Invalid `config/application.json` file"

  function NotDeclaredMessage(processName: string): string {
    "[@soundworks/devtools] Process `" + processName + "` not declared in `./config/application.json`"
  }

  function NotNodeMessage(processName: string): string {
    "[@soundworks/devtools] Process `" + processName + "` not declared as \"node\" target in `./config/application.json`"
  }

  function MissingArtifactMessage(processName: string, processPath: string): string {
    "[@soundworks/devtools] Cannot watch process `" + processName + "`, file `" + processPath
      + "` does not exists, you might want to run `npm run build`"
  }

  /** The TypeError of reading a property of `undefined` or `null`. */
  function UnreadableClientsMessage(processName: string, nullish: string): string {
    "TypeError: Cannot read properties of " + nullish + " (reading '" + processName + "')"
  }

  /** Where the build puts the entry point of a process. */
  function ProcessPath(processName: string): string {
    if processName == "server" then Paths.Join(Paths.Join(".build", processName), "index.js")
    else Paths.Join(Paths.Join(Paths.Join(".build", "clients"), processName), "index.js")
  }

  /** The server and every client named by one segment get their own `index.js` path. */
  lemma ProcessPathShape(processName: string)
    requires Paths.IsSegment(processName)
    ensures processName == "server" ==> ProcessPath(processName) == ".build/server/index.js"
    ensures processName != "server" ==> ProcessPath(processName) == ".build/clients/" + processName + "/index.js"
  {
    var clients := Paths.Join(".build", "clients");
    assert clients == ".build/clients";
    var dir := Paths.Join(clients, processName);
    assert dir == ".build/clients/" + processName;
    assert dir[|dir| - 1] == processName[|processName| - 1];
    assert Paths.Join(dir, "index.js") == dir + "/index.js";
    assert Paths.Join(".build", "server") == ".build/server";
  }

  /** The Node flags of the forked process; `--inspect` comes last, after `--watch`. */
  method BuildExecArgv(inspect: bool) returns (execArgv: seq<string>)
    ensures |execArgv| == if inspect then 4 else 3
    ensures execArgv[..3] == ["--trace-warnings", "--enable-source-maps", "--watch"]
    ensures inspect ==> execArgv[3] == "--inspect"
  {
    execArgv := ["--trace-warnings", "--enable-source-maps", "--watch"];
    if inspect {
      execArgv := execArgv + ["--inspect"];
    }
  }

  /**
   * `watchProcess(processName, inspect)`: the server is launched from its
   * build path without reading the configuration; any other process must be
   * declared in `clients` with target "node". Every refusal exits with
   * status 0, and the process is launched only when its build artifact exists.
   */
  method WatchProcess(processName: string, inspect: bool, config: ConfigRead, existing: set<string>)
    returns (r: WatchOutcome)
    ensures r.Launch? ==>
      && r.path == ProcessPath(processName)
      && r.path in existing
      && r.stdio == "inherit"
      && |r.execArgv| == (if inspect then 4 else 3)
      && r.execArgv[..3] == ["--trace-warnings", "--enable-source-maps", "--watch"]
      && (inspect ==> r.execArgv[3] == "--inspect")
    ensures r.Exit? ==> r.status == 0
    ensures processName == "server" ==>
      (r.Launch? <==> ProcessPath(processName) in existing)
      && (!r.Launch? ==> r == Exit(0, MissingArtifactMessage(processName, ProcessPath(processName))))
    ensures processName != "server" ==>
      match config
      case Unreadable => r == Exit(0, InvalidConfigMessage)
      case Parsed(Undefined) => r == Thrown(UnreadableClientsMessage(processName, "undefined"))
      case Parsed(Null) => r == Thrown(UnreadableClientsMessage(processName, "null"))
      case Parsed(NotAnObject) => r == Exit(0, NotDeclaredMessage(processName))
      case Parsed(Declared(clients)) =>
        if processName !in clients then r == Exit(0, NotDeclaredMessage(processName))
        else if clients[processName].target != Some("node") then r == Exit(0, NotNodeMessage(processName))
        else if ProcessPath(processName) !in existing then
          r == Exit(0, MissingArtifactMessage(processName, ProcessPath(processName)))
        else r.Launch?
  {
    var processPath: string;
    var execArgv := BuildExecArgv(inspect);

    if processName == "server" {
      processPath := ProcessPath(processName);
    } else {
      if config.Unreadable? {
        return Exit(0, InvalidConfigMessage);
      }
      var clientsConfig := config.clients;
      if clientsConfig.Undefined? {
        return Thrown(UnreadableClientsMessage(processName, "undefined"));
      }
      if clientsConfig.Null? {
        return Thrown(UnreadableClientsMessage(processName, "null"));
      }
      if clientsConfig.NotAnObject? || processName !in clientsConfig.clients {
        return Exit(0, NotDeclaredMessage(processName));
      }
      if clientsConfig.clients[processName].target != Some("node") {
        return Exit(0, NotNodeMessage(processName));
      }
      processPath := ProcessPath(processName);
    }

    if processPath !in existing {
      return Exit(0, MissingArtifactMessage(processName, processPath));
    }

    return Launch(processPath, execArgv, "inherit");
  }
}
