/** The process environment as the resolver reads it (`os.getenv`), and the
    ordered scan over alternate variable names (`_first_env`). */
module Environment {
  import opened Wrappers

  /** The process environment: variable name to value. */
  type Env = map<string, string>

  /** `os.getenv(name)`: the value, or `None` when the variable is unset. */
  function GetEnv(env: Env, name: string): (r: Option<string>)
    ensures r.None? <==> name !in env
    ensures r.Some? ==> r.value == env[name]
  {
    if name in env then Some(env[name]) else None
  }

  /** Python truthiness of a `str | None`: present and not the empty string. */
  predicate Truthy(v: Option<string>) {
    v.Some? && v.value != ""
  }

  /** The variable is set to a non-empty value. */
  predicate IsSet(env: Env, name: string) {
    Truthy(GetEnv(env, name))
  }

  /** `names[i]` is the earliest name whose variable is set to a non-empty value. */
  predicate FirstSetAt(env: Env, names: seq<string>, i: int) {
    && 0 <= i < |names|
    && IsSet(env, names[i])
    && forall j :: 0 <= j < i ==> !IsSet(env, names[j])
  }

  /** The value of `_first_env(*names)`, specified by recursion over `names`. */
  function FirstNonEmpty(env: Env, names: seq<string>): (r: Option<string>)
    ensures r.None? <==> forall i :: 0 <= i < |names| ==> !IsSet(env, names[i])
    ensures forall i :: FirstSetAt(env, names, i) ==> r == Some(env[names[i]])
    ensures r.Some? ==> r.value != ""
    decreases |names|
  {
    if names == [] then None
    else if IsSet(env, names[0]) then Some(env[names[0]])
    else
      var rest := FirstNonEmpty(env, names[1..]);
      assert forall i :: FirstSetAt(env, names, i) ==> FirstSetAt(env, names[1..], i - 1);
      assert forall i :: 1 <= i < |names| ==> names[i] == names[1..][i - 1];
      rest
  }

  /** `_first_env(*names)`: scan `names` in order and return the first value
      that is set and non-empty, or `None` when there is none. */
  method FirstEnv(env: Env, names: seq<string>) returns (r: Option<string>)
    ensures r == FirstNonEmpty(env, names)
  {
    var i := 0;
    while i < |names|
      invariant 0 <= i <= |names|
      invariant forall j :: 0 <= j < i ==> !IsSet(env, names[j])
    {
      var value := GetEnv(env, names[i]);
      if Truthy(value) {
        assert FirstSetAt(env, names, i);
        return value;
      }
      i := i + 1;
    }
    return None;
  }
}
