# OTRS MCP server: runtime configuration resolver

The OTRS MCP server is a thin start-up layer in front of an MCP (Model Context
Protocol) server runtime that exposes OTRS ticketing operations. Its own logic,
in `src/otrs_mcp/main.py`, decides how the server starts:

- which **transport** to use (`stdio`, `sse` or `streamable-http`);
- which **host** and **port** to listen on;
- whether the required OTRS **credentials** (`OTRS_BASE_URL`, `OTRS_USERNAME`,
  `OTRS_PASSWORD`) are present.

Each setting comes from a command-line flag, else from an environment
variable, else from a default. A bad transport or port falls back to the
default and writes a warning.

This project models that logic in Dafny and proves its precedence, fallback
and validation rules.

- The environment is a `map<string, string>`. An unset variable is a missing
  key.
- Python truthiness of a `str | None` is `Environment.Truthy`: present and not
  empty. The `or` chains and `if value:` tests use it, so an empty value
  counts as absent.
- The parsed command line is a record of `Option` fields (`CliArgs`).
- Every warning written to standard error is a `warned` flag beside the
  chosen value (`Wrappers.Choice`).

Files:

- `wrappers.dfy`: `Option` and `Choice`.
- `pyint.dfy`: the decimal subset of Python's `int(str)`.
- `environment.dfy`: `os.getenv`, and `_first_env` as a loop proved against a
  recursive specification.
- `runtime_options.dfy`: the constants, `_parse_port` and
  `resolve_runtime_options`.
- `credentials.dfy`: the required-variable loop of `setup_environment` and
  its password masking.

Two details of the code that are easy to miss:

- The port flag is used whenever it is given, even when it is `0`. It goes
  through `_parse_port`, so `0` falls back to 8000 with a warning.
- An empty `MCP_TRANSPORT`, or an empty host flag, counts as unset.

## Model

| member | source | states |
|---|---|---|
| Environment.GetEnv | src/otrs_mcp/main.py:42 | `os.getenv(name)` is None exactly when the variable is unset. Otherwise it is the variable's value. |
| Environment.FirstNonEmpty | src/otrs_mcp/main.py:40-45 | The result is None exactly when every name is unset or empty. Otherwise it is the value of the earliest name, in argument order, whose variable is non-empty. That value is never empty. |
| Environment.FirstEnv | src/otrs_mcp/main.py:40-45 | The in-order scan with an early return gives the same result as `FirstNonEmpty`. Its loop invariant is that no earlier name was set. |
| RuntimeConfig.ParsePort | src/otrs_mcp/main.py:48-59 | No value gives the default and no warning. A value `int()` cannot parse gives the default and a warning. A parsed value outside 1..65535 gives the default and a warning. A parsed value in range comes back unchanged, with no warning. The result is in range whenever the default is. |
| RuntimeConfig.ChooseTransport | src/otrs_mcp/main.py:63-70 | A non-empty flag wins over a non-empty `MCP_TRANSPORT`, which wins over `stdio`. A supported choice is kept with no warning. An unsupported one becomes `stdio` with a warning. The result is always one of `stdio`, `sse`, `streamable-http`. |
| RuntimeConfig.ChooseHost | src/otrs_mcp/main.py:72 | A non-empty host flag wins. Otherwise the host is the value of the first non-empty of `MCP_HTTP_HOST`, `MCP_SERVER_HOST`, `MCP_HOST`. Otherwise it is `127.0.0.1`. The host is never empty. |
| RuntimeConfig.ChoosePort | src/otrs_mcp/main.py:73-78 | A given port flag, `0` included, decides alone. An in-range flag is kept. Any other flag value gives 8000 with a warning. Without the flag, the first non-empty of `MCP_HTTP_PORT`, `MCP_SERVER_PORT`, `MCP_PORT` goes through `_parse_port`. With none of those set, the port is 8000 with no warning. The port is always in 1..65535. |
| RuntimeConfig.ResolveRuntimeOptions | src/otrs_mcp/main.py:62-80 | The options always have a supported transport, a non-empty host and a port in 1..65535. Each field and each warning is the one the transport, host and port rules above choose. |
| RuntimeConfig.PortFromEnvironment | src/otrs_mcp/main.py:73-78 | With no port flag, a port in range written in decimal into the first set port variable is the resolved port, with no warning. |
| RuntimeConfig.PortFromEnvironmentOutOfRange | src/otrs_mcp/main.py:56-58 | With no port flag, an out-of-range integer written into the first set port variable resolves to 8000 with a warning. |
| RuntimeConfig.ExampleSseFromEnvironment | src/otrs_mcp/main.py:62-80 | No flags, `MCP_TRANSPORT=sse` and `MCP_PORT=9999` resolve to transport `sse`, host `127.0.0.1`, port 9999, with no warning. |
| RuntimeConfig.ExampleCliPortOutOfRange | src/otrs_mcp/main.py:73-78 | `--port 70000` with an empty environment resolves to port 8000, with a warning. |
| PyInt.ParseInt | src/otrs_mcp/main.py:52 | `int(value)` on a string succeeds exactly when the text is an optionally signed run of 1 to 4300 decimal digits, with surrounding space, tab, newline, vertical tab, form feed or carriage return skipped. Only a leading `-` gives a negative value. `ParseShowInt` and `ParseIntPadded` give its round trip and its whitespace behaviour. |
| PyInt.ParseShowInt | src/otrs_mcp/main.py:52 | `int()` reads back the decimal text of every integer of at most 4300 digits as that integer. Longer texts are rejected. |
| PyInt.ParseIntRejectsSeparator | src/otrs_mcp/main.py:52-55 | A port text starting with U+001C, which `str.strip()` would remove but `int()` does not skip, fails to parse, so it takes the fallback path. |
| PyInt.ParseIntPadded | src/otrs_mcp/main.py:52 | One character that `int()` skips (space, tab through carriage return) on both sides of the text does not change what `int()` reads. |
| Credentials.HasSubstring | src/otrs_mcp/main.py:100 | Python's `sub in s`: the empty string occurs in every string, a prefix occurs, and nothing longer than `s` occurs. |
| Credentials.Mask | src/otrs_mcp/main.py:100 | `"*" * n` has length `n` and consists of `*` only. |
| Credentials.DisplayValue | src/otrs_mcp/main.py:100 | The display has the same length as the value. For a name containing `PASSWORD`, every character is `*`. For any other name, the display is the value itself. |
| Credentials.SetupEnvironment | src/otrs_mcp/main.py:88-110 | The loop collects the missing required variables and the displayed ones in declared order. The check fails exactly when some required variable is unset or empty. |
| Credentials.MissingVarsMembers | src/otrs_mcp/main.py:95-98 | A name is reported missing exactly when it is listed and its variable is unset or empty. |
| Credentials.MissingVarsEmpty | src/otrs_mcp/main.py:103-110 | Nothing is missing exactly when every listed variable is set and non-empty. |
| Credentials.MissingVarsInOrder | src/otrs_mcp/main.py:92-98 | The missing list picks names out of the declared list at strictly increasing positions, so the declared order is kept. |
| Credentials.ShownVarsDisplay | src/otrs_mcp/main.py:99-101 | Every displayed pair names a listed variable that is set, with that variable's display value. |
| Credentials.MissingAndShownPartition | src/otrs_mcp/main.py:95-101 | Each listed variable is either reported missing or displayed, never both. The two counts add up to the number of listed variables. Every listed variable that is set is displayed with its display value. No displayed name is reported missing. |
| Credentials.CredentialsDisplay | src/otrs_mcp/main.py:92-101 | With all three credentials set, the URL and user name are shown verbatim. The password is shown as one `*` per character. |
| Credentials.NotSecret | src/otrs_mcp/main.py:100 | Neither `OTRS_BASE_URL` nor `OTRS_USERNAME` contains `PASSWORD`, so neither is masked. |
| Credentials.PasswordIsSecret | src/otrs_mcp/main.py:100 | `OTRS_PASSWORD` contains `PASSWORD`, so it is masked. |
| Credentials.ExampleMissingPassword | src/otrs_mcp/main.py:92-110 | With the URL and user name set and the password unset, exactly `OTRS_PASSWORD` is missing, so the check fails. |

## Left out

- `parse_cli_args` (argparse) is not part of this model. Its result is the
  `CliArgs` record. The model does not assume argparse's `choices` and
  `type=int` limits, so it covers every flag value, including ones argparse
  would reject.
- PyInt.ParseInt models only the decimal subset of Python's `int(str)`. It
  covers skipping of the C `isspace` characters (space, tab through carriage
  return), an optional `+` or `-`, and 1 to 4300 ASCII digits. `int()` does not
  use `str.strip()`, so U+001C to U+001F are not skipped: they make it fail, in
  Python and in the model. Digit underscores (`8_000`), non-ASCII digits and
  non-ASCII whitespace (which Python turns into a space) are not modelled. For
  those inputs the model reports a parse failure where Python would accept. The model keeps the 4300-digit limit at its default, so a
  limit changed through `PYTHONINTMAXSTRDIGITS` or
  `sys.set_int_max_str_digits` is not modelled.
- Printing is not modelled. This covers the warning texts, the configuration
  summary, the remediation lines and the runtime settings block. A warning is
  a boolean. The summary lines for the required variables are the `shown`
  pairs.
- The optional-variable display loop (`OTRS_VERIFY_SSL`, `OTRS_DEFAULT_*`) is
  not modelled. It only prints and does not affect the result. For the same
  reason, `SetupEnvironment` does not take the runtime options, which
  `setup_environment` only prints.
- `apply_runtime_settings` and `mcp.run` are not modelled. They write into
  and block on the external server runtime, which is not part of this model.
- `run_server`'s `sys.exit(1)` and its start-up banner are process control and
  output, so they are left out. What the model keeps is the boolean that
  decides the exit.
