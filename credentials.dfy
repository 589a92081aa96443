/** The credential check of `setup_environment`: which required variables are
    missing, in declared order, and how the present ones are displayed. */
module Credentials {
  import opened Wrappers
  import opened Environment

  const RequiredVars := ["OTRS_BASE_URL", "OTRS_USERNAME", "OTRS_PASSWORD"]
  const SecretMarker := "PASSWORD"

  /** `sub` occurs in `s` starting at position `i`. */
  predicate OccursAt(s: string, sub: string, i: int) {
    0 <= i && i + |sub| <= |s| && s[i..i + |sub|] == sub
  }

  /** Python's `sub in s` on strings: `sub` occurs in `s` as a contiguous run. */
  predicate HasSubstring(s: string, sub: string)
    ensures sub == [] ==> HasSubstring(s, sub)
    ensures |sub| <= |s| && s[..|sub|] == sub ==> HasSubstring(s, sub)
    ensures HasSubstring(s, sub) ==> |sub| <= |s|
  {
    assert |sub| <= |s| && s[..|sub|] == sub ==> OccursAt(s, sub, 0);
    exists i | 0 <= i <= |s| :: OccursAt(s, sub, i)
  }

  /** `"*" * n`. */
  function Mask(n: nat): (m: string)
    ensures |m| == n && forall k :: 0 <= k < n ==> m[k] == '*'
  {
    seq(n, _ => '*')
  }

  /** The summary line's value for `name`: masked when the name contains
      "PASSWORD", the value itself otherwise. */
  function DisplayValue(name: string, value: string): (d: string)
    ensures |d| == |value|
    ensures HasSubstring(name, SecretMarker) ==> forall k :: 0 <= k < |d| ==> d[k] == '*'
    ensures !HasSubstring(name, SecretMarker) ==> d == value
  {
    if HasSubstring(name, SecretMarker) then Mask(|value|) else value
  }

  /** The names in `vars`, in order, whose variable is unset or empty: the
      `missing_vars` list that the loop of `setup_environment` appends to. */
  function MissingVars(env: Env, vars: seq<string>): (r: seq<string>)
    decreases |vars|
  {
    if vars == [] then []
    else
      var last := vars[|vars| - 1];
      MissingVars(env, vars[..|vars| - 1]) + (if IsSet(env, last) then [] else [last])
  }

  /** The `(name, display value)` pairs the same loop prints, in order. */
  function ShownVars(env: Env, vars: seq<string>): (r: seq<(string, string)>)
    decreases |vars|
  {
    if vars == [] then []
    else
      var last := vars[|vars| - 1];
      ShownVars(env, vars[..|vars| - 1])
        + (if IsSet(env, last) then [(last, DisplayValue(last, env[last]))] else [])
  }

  /** `setup_environment(options)` up to its return value: the loop over the
      required variables, collecting the missing ones and the displayed ones;
      the check fails exactly when something is missing. */
  method SetupEnvironment(env: Env) returns (ok: bool, missing: seq<string>, shown: seq<(string, string)>)
    ensures missing == MissingVars(env, RequiredVars)
    ensures shown == ShownVars(env, RequiredVars)
    ensures ok <==> missing == []
    ensures !ok <==> exists i :: 0 <= i < |RequiredVars| && !IsSet(env, RequiredVars[i])
  {
    missing := [];
    shown := [];
    var i := 0;
    while i < |RequiredVars|
      invariant 0 <= i <= |RequiredVars|
      invariant missing == MissingVars(env, RequiredVars[..i])
      invariant shown == ShownVars(env, RequiredVars[..i])
    {
      var name := RequiredVars[i];
      var value := GetEnv(env, name);
      assert RequiredVars[..i + 1][..i] == RequiredVars[..i];
      if !Truthy(value) {
        missing := missing + [name];
      } else {
        shown := shown + [(name, DisplayValue(name, value.value))];
      }
      i := i + 1;
    }
    assert RequiredVars[..i] == RequiredVars;
    MissingVarsEmpty(env, RequiredVars);
    ok := missing == [];
  }

  /** A name is reported missing exactly when it is listed and its variable is
      unset or empty. */
  lemma {:induction false} MissingVarsMembers(env: Env, vars: seq<string>, v: string)
    ensures v in MissingVars(env, vars) <==> v in vars && !IsSet(env, v)
    decreases |vars|
  {
    if vars != [] {
      var init := vars[..|vars| - 1];
      MissingVarsMembers(env, init, v);
      assert vars == init + [vars[|vars| - 1]];
    }
  }

  /** Nothing is missing exactly when every listed variable is set and non-empty. */
  lemma MissingVarsEmpty(env: Env, vars: seq<string>)
    ensures MissingVars(env, vars) == [] <==> forall i :: 0 <= i < |vars| ==> IsSet(env, vars[i])
  {
    if MissingVars(env, vars) != [] {
      var v := MissingVars(env, vars)[0];
      MissingVarsMembers(env, vars, v);
    } else {
      forall i | 0 <= i < |vars| ensures IsSet(env, vars[i]) {
        MissingVarsMembers(env, vars, vars[i]);
      }
    }
  }

  /** The missing list keeps the declared order: it picks names out of `vars`
      at strictly increasing positions. */
  lemma {:induction false} MissingVarsInOrder(env: Env, vars: seq<string>) returns (pos: seq<int>)
    ensures |pos| == |MissingVars(env, vars)|
    ensures forall k :: 0 <= k < |pos| ==>
              0 <= pos[k] < |vars| && MissingVars(env, vars)[k] == vars[pos[k]]
    ensures forall k, l :: 0 <= k < l < |pos| ==> pos[k] < pos[l]
    decreases |vars|
  {
    if vars == [] {
      pos := [];
    } else {
      var n := |vars| - 1;
      var init := vars[..n];
      var before := MissingVarsInOrder(env, init);
      pos := if IsSet(env, vars[n]) then before else before + [n];
    }
  }

  /** Every displayed pair is a listed, set variable with its display value. */
  lemma {:induction false} ShownVarsDisplay(env: Env, vars: seq<string>, k: int)
    requires 0 <= k < |ShownVars(env, vars)|
    ensures var (name, shown) := ShownVars(env, vars)[k];
            name in vars && IsSet(env, name) && shown == DisplayValue(name, env[name])
    decreases |vars|
  {
    var n := |vars| - 1;
    var init := vars[..n];
    if k < |ShownVars(env, init)| {
      ShownVarsDisplay(env, init, k);
    }
  }

  /** Every listed variable is either reported missing or displayed, never
      both: the counts add up, every set variable is displayed with its display
      value, and no displayed name is reported missing. */
  lemma {:induction false} MissingAndShownPartition(env: Env, vars: seq<string>, v: string)
    ensures |MissingVars(env, vars)| + |ShownVars(env, vars)| == |vars|
    ensures v in vars && IsSet(env, v) ==> (v, DisplayValue(v, env[v])) in ShownVars(env, vars)
    ensures v in MissingVars(env, vars) ==>
              forall k :: 0 <= k < |ShownVars(env, vars)| ==> ShownVars(env, vars)[k].0 != v
    decreases |vars|
  {
    if vars != [] {
      var init := vars[..|vars| - 1];
      MissingAndShownPartition(env, init, v);
      assert vars == init + [vars[|vars| - 1]];
    }
    if v in MissingVars(env, vars) {
      MissingVarsMembers(env, vars, v);
      forall k | 0 <= k < |ShownVars(env, vars)| ensures ShownVars(env, vars)[k].0 != v {
        ShownVarsDisplay(env, vars, k);
      }
    }
  }

  /** With all three credentials set, the URL and user name are shown verbatim
      and the password as one '*' per character. */
  lemma CredentialsDisplay(env: Env)
    requires IsSet(env, "OTRS_BASE_URL") && IsSet(env, "OTRS_USERNAME") && IsSet(env, "OTRS_PASSWORD")
    ensures var shown := ShownVars(env, RequiredVars);
            && |shown| == 3
            && shown[0] == ("OTRS_BASE_URL", env["OTRS_BASE_URL"])
            && shown[1] == ("OTRS_USERNAME", env["OTRS_USERNAME"])
            && shown[2] == ("OTRS_PASSWORD", Mask(|env["OTRS_PASSWORD"]|))
  {
    var url, user, password := env["OTRS_BASE_URL"], env["OTRS_USERNAME"], env["OTRS_PASSWORD"];
    var init := RequiredVars[..2];
    assert ShownVars(env, init) == [("OTRS_BASE_URL", url), ("OTRS_USERNAME", user)] by {
      NotSecret("OTRS_BASE_URL");
      NotSecret("OTRS_USERNAME");
      assert init == ["OTRS_BASE_URL", "OTRS_USERNAME"];
      assert init[..1] == ["OTRS_BASE_URL"];
      assert ShownVars(env, init[..1]) == [("OTRS_BASE_URL", url)];
    }
    assert ShownVars(env, RequiredVars) == ShownVars(env, init) + [("OTRS_PASSWORD", Mask(|password|))] by {
      PasswordIsSecret();
      assert RequiredVars[..|RequiredVars| - 1] == init;
    }
  }

  /** Neither the URL nor the user name variable is displayed masked. */
  lemma NotSecret(name: string)
    requires name == "OTRS_BASE_URL" || name == "OTRS_USERNAME"
    ensures !HasSubstring(name, SecretMarker)
  {
    forall i | 0 <= i <= |name| ensures !OccursAt(name, SecretMarker, i) {
      if i + |SecretMarker| <= |name| {
        assert name[i..i + |SecretMarker|][0] == name[i];
      }
    }
  }

  /** The password variable is displayed masked. */
  lemma PasswordIsSecret()
    ensures HasSubstring("OTRS_PASSWORD", SecretMarker)
  {
    assert OccursAt("OTRS_PASSWORD", SecretMarker, 5);
  }

  /** URL and user name set, password unset: only the password is missing. */
  lemma ExampleMissingPassword(url: string, user: string)
    requires url != "" && user != ""
    ensures MissingVars(map["OTRS_BASE_URL" := url, "OTRS_USERNAME" := user], RequiredVars)
            == ["OTRS_PASSWORD"]
  {
    var env := map["OTRS_BASE_URL" := url, "OTRS_USERNAME" := user];
    var init := RequiredVars[..2];
    assert init == ["OTRS_BASE_URL", "OTRS_USERNAME"];
    assert init[..1] == ["OTRS_BASE_URL"];
    assert MissingVars(env, init[..1]) == [];
    assert MissingVars(env, init) == [];
    assert !IsSet(env, "OTRS_PASSWORD");
  }
}
