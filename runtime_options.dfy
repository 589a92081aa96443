/** `resolve_runtime_options` and `_parse_port`: from the parsed command line
    and the environment to the transport, host and port the server starts with. */
module RuntimeConfig {
  import opened Wrappers
  import opened Environment
  import opened PyInt

  const ValidTransports: set<string> := {"stdio", "sse", "streamable-http"}
  const DefaultTransport := "stdio"
  const DefaultHttpHost := "127.0.0.1"
  const DefaultHttpPort := 8000

  const TransportVar := "MCP_TRANSPORT"
  const HostVars := ["MCP_HTTP_HOST", "MCP_SERVER_HOST", "MCP_HOST"]
  const PortVars := ["MCP_HTTP_PORT", "MCP_SERVER_PORT", "MCP_PORT"]

  /** The settings handed to the server runtime. */
  datatype RuntimeOptions = RuntimeOptions(transport: string, host: string, port: int)

  /** What the command-line parser yields: each flag is `None` when not given. */
  datatype CliArgs = CliArgs(transport: Option<string>, host: Option<string>, port: Option<int>)

  /** The argument of `_parse_port`: `None`, an `int` from the command line, or
      a `str` from the environment. */
  datatype PortValue = Absent | Number(n: int) | Text(s: string)

  /** The outcome of `resolve_runtime_options`, with whether each fallback warned. */
  datatype Resolution = Resolution(options: RuntimeOptions, transportWarned: bool, portWarned: bool)

  predicate InPortRange(p: int) {
    0 < p < 65536
  }

  /** Every option record the resolver can produce satisfies this. */
  predicate ValidOptions(o: RuntimeOptions) {
    o.transport in ValidTransports && o.host != "" && InPortRange(o.port)
  }

  /** `int(value)` for a present argument; `None` where Python raises `ValueError`. */
  function IntValue(value: PortValue): (r: Option<int>)
    requires !value.Absent?
  {
    match value
    case Number(n) => Some(n)
    case Text(s) => ParseInt(s)
  }

  /** `_parse_port(value, default=defaultPort)`. */
  function ParsePort(value: PortValue, defaultPort: int): (r: Choice<int>)
    ensures InPortRange(defaultPort) ==> InPortRange(r.value)
    ensures value.Absent? ==> r == Choice(defaultPort, false)
    ensures !value.Absent? && IntValue(value).None? ==> r == Choice(defaultPort, true)
    ensures !value.Absent? && IntValue(value).Some? ==>
              if InPortRange(IntValue(value).value) then r == Choice(IntValue(value).value, false)
              else r == Choice(defaultPort, true)
  {
    match value
    case Absent => Choice(defaultPort, false)
    case _ =>
      match IntValue(value)
      case None => Choice(defaultPort, true)
      case Some(port) =>
        if !InPortRange(port) then Choice(defaultPort, true) else Choice(port, false)
  }

  /** `args.transport or MCP_TRANSPORT or "stdio"`, then any
      value outside the supported set is replaced by "stdio" with a warning. */
  function ChooseTransport(cli: Option<string>, env: Env): (r: Choice<string>)
    ensures r.value in ValidTransports
    ensures Truthy(cli) ==>
              if cli.value in ValidTransports then r == Choice(cli.value, false)
              else r == Choice(DefaultTransport, true)
    ensures !Truthy(cli) && IsSet(env, TransportVar) ==>
              if env[TransportVar] in ValidTransports then r == Choice(env[TransportVar], false)
              else r == Choice(DefaultTransport, true)
    ensures !Truthy(cli) && !IsSet(env, TransportVar) ==> r == Choice(DefaultTransport, false)
  {
    var envTransport := GetEnv(env, TransportVar);
    var transport :=
      if Truthy(cli) then cli.value
      else if Truthy(envTransport) then envTransport.value
      else DefaultTransport;
    if transport !in ValidTransports then Choice(DefaultTransport, true)
    else Choice(transport, false)
  }

  /** `args.host or _first_env(*HostVars) or DEFAULT_HTTP_HOST`. */
  function ChooseHost(cli: Option<string>, env: Env): (host: string)
    ensures host != ""
    ensures Truthy(cli) ==> host == cli.value
    ensures !Truthy(cli) ==> forall i :: FirstSetAt(env, HostVars, i) ==> host == env[HostVars[i]]
    ensures !Truthy(cli) && (forall i :: 0 <= i < |HostVars| ==> !IsSet(env, HostVars[i])) ==>
              host == DefaultHttpHost
  {
    if Truthy(cli) then cli.value
    else
      var fromEnv := FirstNonEmpty(env, HostVars);
      if Truthy(fromEnv) then fromEnv.value else DefaultHttpHost
  }

  /** The command-line port whenever it is given (0 included),
      otherwise the first non-empty of the port variables, always through
      `_parse_port` with the default port. */
  function ChoosePort(cli: Option<int>, env: Env): (r: Choice<int>)
    ensures InPortRange(r.value)
    ensures cli.Some? ==>
              if InPortRange(cli.value) then r == Choice(cli.value, false)
              else r == Choice(DefaultHttpPort, true)
    ensures cli.None? ==>
              forall i :: FirstSetAt(env, PortVars, i) ==>
                r == ParsePort(Text(env[PortVars[i]]), DefaultHttpPort)
    ensures cli.None? && (forall i :: 0 <= i < |PortVars| ==> !IsSet(env, PortVars[i])) ==>
              r == Choice(DefaultHttpPort, false)
  {
    var source :=
      if cli.Some? then Number(cli.value)
      else match FirstNonEmpty(env, PortVars)
        case Some(s) => Text(s)
        case None => Absent;
    ParsePort(source, DefaultHttpPort)
  }

  /** `resolve_runtime_options(args)` with the environment made explicit. */
  function ResolveRuntimeOptions(args: CliArgs, env: Env): (r: Resolution)
    ensures ValidOptions(r.options)
    ensures Choice(r.options.transport, r.transportWarned) == ChooseTransport(args.transport, env)
    ensures r.options.host == ChooseHost(args.host, env)
    ensures Choice(r.options.port, r.portWarned) == ChoosePort(args.port, env)
  {
    var transport := ChooseTransport(args.transport, env);
    var host := ChooseHost(args.host, env);
    var port := ChoosePort(args.port, env);
    Resolution(RuntimeOptions(transport.value, host, port.value), transport.warned, port.warned)
  }

  /** A port in range written in decimal into the first set port variable is
      the port the server gets, with no warning. */
  lemma PortFromEnvironment(env: Env, i: int, p: int)
    requires FirstSetAt(env, PortVars, i)
    requires env[PortVars[i]] == ShowInt(p) && InPortRange(p)
    ensures ChoosePort(None, env) == Choice(p, false)
  {
    assert Pow10(5) == 100000;
    ShowNatLength(p, 5);
    ParseShowInt(p);
  }

  /** Any value outside 1..65535 written into the first set port variable
      gives the default port and a warning. */
  lemma PortFromEnvironmentOutOfRange(env: Env, i: int, p: int)
    requires FirstSetAt(env, PortVars, i)
    requires env[PortVars[i]] == ShowInt(p) && !InPortRange(p)
    ensures ChoosePort(None, env) == Choice(DefaultHttpPort, true)
  {
    ParseShowInt(p);
  }

  /** No flags, `MCP_TRANSPORT=sse` and `MCP_PORT=9999`: SSE on the default host, port 9999. */
  lemma ExampleSseFromEnvironment()
    ensures ResolveRuntimeOptions(CliArgs(None, None, None),
                                  map["MCP_TRANSPORT" := "sse", "MCP_PORT" := "9999"])
            == Resolution(RuntimeOptions("sse", "127.0.0.1", 9999), false, false)
  {
    var env := map["MCP_TRANSPORT" := "sse", "MCP_PORT" := "9999"];
    assert ChooseTransport(None, env) == Choice("sse", false) by {
      assert IsSet(env, TransportVar);
    }
    assert ChooseHost(None, env) == DefaultHttpHost by {
      assert forall i :: 0 <= i < |HostVars| ==> HostVars[i] !in env;
    }
    assert ChoosePort(None, env) == Choice(9999, false) by {
      DecimalText9999();
      assert FirstSetAt(env, PortVars, 2) by {
        assert PortVars[0] !in env && PortVars[1] !in env;
      }
      PortFromEnvironment(env, 2, 9999);
    }
  }

  lemma DecimalText9999()
    ensures ShowInt(9999) == "9999"
  {
    assert DigitChar(9) == '9';
    assert ShowNat(9) == "9";
    assert ShowNat(99) == "99";
    assert ShowNat(999) == "999";
  }

  /** `--port 70000` with an empty environment: the default port, with a warning. */
  lemma ExampleCliPortOutOfRange()
    ensures var r := ResolveRuntimeOptions(CliArgs(None, None, Some(70000)), map[]);
            r.options.port == 8000 && r.portWarned
  {
  }
}
