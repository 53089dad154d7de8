/** The launcher (run.py): picks the mode from the command line, starts the
    Streamlit dashboard and then the Flask auth server as child processes, and on
    Ctrl+C terminates the dashboard and then the auth server. */
module Launcher {
  import opened Common

  /** The two child processes. */
  datatype Child = Dashboard | AuthServer

  /** What the launcher does to its children: start one with a command line and, for the
      auth server, an explicit environment (None: the dashboard inherits the launcher's),
      or send one `terminate()`. */
  datatype Step =
    | Spawn(child: Child, command: seq<string>, env: Option<map<string, string>>)
    | Terminate(child: Child)

  /** The dashboard's arguments after the interpreter: the module, the script and the
      fixed server options. The port is always 8501, whatever `.env.ports` says. */
  const DashboardArgs: seq<string> := [
    "-m", "streamlit", "run", "dashboard_app.py",
    "--server.port", "8501",
    "--server.address", "127.0.0.1",
    "--server.headless", "true"
  ]

  /** The options added in production, where a proxy serves the dashboard under a sub-path. */
  const ProxyArgs: seq<string> := ["--server.baseUrlPath", "/dashboard-app/"]

  /** The environment variable that switches Flask's debug mode. */
  const DebugVar := "FLASK_DEBUG"

  /** The dashboard's command line for the interpreter `python`: development runs exactly
      the fixed command, production appends exactly the proxy options. */
  function DashboardCommand(python: string, prod: bool): (cmd: seq<string>)
    ensures |cmd| == if prod then 13 else 11
    ensures cmd[..11] == [python] + DashboardArgs
    ensures prod ==> cmd[11..] == ["--server.baseUrlPath", "/dashboard-app/"]
  {
    [python] + DashboardArgs + (if prod then ProxyArgs else [])
  }

  /** The auth server's environment: the launcher's own, with debug switched off in production.
      Every variable is inherited unchanged except FLASK_DEBUG, which is "False" in production
      and "True" otherwise, set whether or not it was inherited. */
  function AuthEnv(environ: map<string, string>, prod: bool): (env: map<string, string>)
    ensures env.Keys == environ.Keys + {"FLASK_DEBUG"}
    ensures env["FLASK_DEBUG"] == if prod then "False" else "True"
    ensures forall v :: v in environ && v != "FLASK_DEBUG" ==> env[v] == environ[v]
  {
    environ[DebugVar := if prod then "False" else "True"]
  }

  /** Everything the launcher does to its children, from start to Ctrl+C. */
  function Session(python: string, environ: map<string, string>, prod: bool): seq<Step>
  {
    [ Spawn(Dashboard, DashboardCommand(python, prod), None),
      Spawn(AuthServer, [python, "auth_server.py"], Some(AuthEnv(environ, prod))),
      Terminate(Dashboard),
      Terminate(AuthServer) ]
  }

  /** `run_app()` on `sys.argv`, `os.environ` and `sys.executable`: the mode and the steps.
      The command list is built and then extended in place, the environment is copied and
      then updated; the idle loop is left once the interrupt arrives. */
  method RunApp(argv: seq<string>, environ: map<string, string>, python: string)
    returns (prod: bool, trace: seq<Step>)
    ensures prod <==> exists i :: 0 <= i < |argv| && argv[i] == "--prod"
    ensures trace == Session(python, environ, prod)
  {
    prod := "--prod" in argv;
    var command := [python] + DashboardArgs;
    if prod {
      command := command + ProxyArgs;
    } else {
      assert command == [python] + DashboardArgs + [];
    }
    trace := [Spawn(Dashboard, command, None)];
    var env := environ;
    env := env[DebugVar := if prod then "False" else "True"];
    trace := trace + [Spawn(AuthServer, [python, "auth_server.py"], Some(env))];
    trace := trace + [Terminate(Dashboard)];
    trace := trace + [Terminate(AuthServer)];
  }

  /** Flag / value pairs, read two at a time from the front; an earlier flag wins. */
  function OptionValues(args: seq<string>): map<string, string>
    decreases |args|
  {
    if |args| < 2 then map[] else OptionValues(args[2..])[args[0] := args[1]]
  }

  /** The dashboard command starts with the interpreter running `streamlit run dashboard_app.py`,
      and its options are port 8501 on 127.0.0.1, headless, plus the base path
      `/dashboard-app/` exactly in production. */
  lemma DashboardOptions(python: string, prod: bool)
    ensures var cmd := DashboardCommand(python, prod);
      cmd[..5] == [python, "-m", "streamlit", "run", "dashboard_app.py"]
      && OptionValues(cmd[5..]) ==
           (if prod
            then map["--server.port" := "8501", "--server.address" := "127.0.0.1",
                     "--server.headless" := "true", "--server.baseUrlPath" := "/dashboard-app/"]
            else map["--server.port" := "8501", "--server.address" := "127.0.0.1",
                     "--server.headless" := "true"])
  {
    var cmd := DashboardCommand(python, prod);
    var tail: seq<string> := if prod then ProxyArgs else [];
    assert cmd[5..] == DashboardArgs[4..] + tail;
    FixedOptions(tail);
    if prod {
      OptionPair("--server.baseUrlPath", "/dashboard-app/", []);
      assert tail == ["--server.baseUrlPath", "/dashboard-app/"] + [];
    }
  }

  /** The fixed server options, read in front of whatever follows them. */
  lemma FixedOptions(tail: seq<string>)
    ensures OptionValues(DashboardArgs[4..] + tail)
         == OptionValues(tail)["--server.headless" := "true"]["--server.address" := "127.0.0.1"]["--server.port" := "8501"]
  {
    OptionPair("--server.headless", "true", tail);
    OptionPair("--server.address", "127.0.0.1", ["--server.headless", "true"] + tail);
    OptionPair("--server.port", "8501", ["--server.address", "127.0.0.1", "--server.headless", "true"] + tail);
    assert DashboardArgs[4..] + tail == ["--server.port", "8501"] + (["--server.address", "127.0.0.1", "--server.headless", "true"] + tail);
    assert ["--server.address", "127.0.0.1"] + (["--server.headless", "true"] + tail)
        == ["--server.address", "127.0.0.1", "--server.headless", "true"] + tail;
  }

  lemma OptionPair(flag: string, value: string, rest: seq<string>)
    ensures OptionValues([flag, value] + rest) == OptionValues(rest)[flag := value]
  {
    assert ([flag, value] + rest)[2..] == rest;
  }

  /** How many steps start `c`, and how many terminate it. */
  function Spawns(trace: seq<Step>, c: Child): nat
  {
    if trace == [] then 0 else (if trace[0].Spawn? && trace[0].child == c then 1 else 0) + Spawns(trace[1..], c)
  }

  function Terminations(trace: seq<Step>, c: Child): nat
  {
    if trace == [] then 0 else (if trace[0] == Terminate(c) then 1 else 0) + Terminations(trace[1..], c)
  }

  /** Each child is started once and terminated once, never before it was started. */
  predicate WellSupervised(trace: seq<Step>)
  {
    (forall c :: Spawns(trace, c) == 1 && Terminations(trace, c) == 1)
    && (forall i, j ::
          (0 <= i < |trace| && 0 <= j < |trace| && trace[j].Spawn? && trace[i] == Terminate(trace[j].child))
          ==> j < i)
  }

  /** The dashboard is started before the auth server, and terminated before it. */
  predicate DashboardFirst(trace: seq<Step>)
  {
    forall i, j ::
      (0 <= i < |trace| && 0 <= j < |trace| && trace[i].child == Dashboard && trace[j].child == AuthServer
       && (trace[i].Spawn? <==> trace[j].Spawn?))
      ==> i < j
  }

  /** The launcher starts and stops its children in that discipline, in either mode. */
  lemma SessionWellSupervised(python: string, environ: map<string, string>, prod: bool)
    ensures WellSupervised(Session(python, environ, prod))
    ensures DashboardFirst(Session(python, environ, prod))
  {
    var t := Session(python, environ, prod);
    assert t[3..][1..] == [] && t[2..][1..] == t[3..] && t[1..][1..] == t[2..];
    forall c ensures Spawns(t, c) == 1 && Terminations(t, c) == 1 {
      assert Spawns(t[3..], c) == 0 && Spawns(t[2..], c) == 0;
      assert Terminations(t[3..], c) == (if c == AuthServer then 1 else 0);
      assert Terminations(t[1..], c) == 1;
    }
  }
}
