/** `ApptainerEnvironment.execute` of rca/environments/apptainer_env.py: the argument
    vector for `apptainer exec` built from the configuration, the host environment and the
    command, then one run of it with the effective timeout. The host environment stands in
    for `os.getenv`; the process run is a parameter. */
module ApptainerEnv {
  import opened Wrappers
  import opened PyDict

  /** The configuration fields `execute` reads. */
  datatype Config = Config(
    executable: string,
    cwd: string,
    forwardEnv: seq<string>,
    env: Dict,
    timeout: int)

  /** What a finished process gives back, or the timeout exception of `subprocess.run`. */
  datatype RunResult = Completed(output: string, returncode: int) | TimeoutExpired

  /** One `subprocess.run` of `execute`: the argument vector and the timeout it was given. */
  datatype Invocation = Invocation(argv: seq<string>, timeout: int)

  /** The process run, seen from outside: what an invocation gives back, given the
      invocations that already ran in the same sandbox (the state of its writable root is
      a product of them). */
  type Run = (seq<Invocation>, Invocation) -> RunResult

  /** The options that keep the host's directories and variables out. */
  const Isolation: seq<string> := ["--contain", "--cleanenv", "--no-mount", "hostfs"]

  /** `cwd or config.cwd`. */
  function WorkDir(cwd: string, config: Config): (wd: string)
    ensures cwd != "" ==> wd == cwd
    ensures cwd == "" ==> wd == config.cwd
  {
    if cwd != "" then cwd else config.cwd
  }

  /** `--pwd wd`, unless the work dir is empty or the root. */
  function PwdArgs(wd: string): (r: seq<string>)
    ensures r != [] <==> wd != "" && wd != "/"
    ensures r != [] ==> r == ["--pwd", wd]
  {
    if wd != "" && wd != "/" then ["--pwd", wd] else []
  }

  /** The forwarded variables: the keys of `forward_env` the host defines, in their order,
      with the host's values. */
  function Forwarded(keys: seq<string>, host: map<string, string>): Dict
    decreases |keys|
  {
    if keys == [] then []
    else
      var k := keys[|keys| - 1];
      Forwarded(keys[..|keys| - 1], host) + (if k in host then [(k, host[k])] else [])
  }

  /** `--env K=V` for each pair. */
  function EnvArgs(ps: Dict): seq<string>
    decreases |ps|
  {
    if ps == [] then []
    else EnvArgs(ps[..|ps| - 1]) + ["--env", ps[|ps| - 1].0 + "=" + ps[|ps| - 1].1]
  }

  /** The argument vector `execute` passes to `subprocess.run`. */
  function Argv(config: Config, sandboxDir: string, host: map<string, string>, command: string, cwd: string): seq<string> {
    [config.executable, "exec"] + Isolation
    + PwdArgs(WorkDir(cwd, config))
    + EnvArgs(Forwarded(config.forwardEnv, host)) + EnvArgs(config.env)
    + ["--writable", sandboxDir, "bash", "-c", command]
  }

  /** `timeout or self.config.timeout`: None and 0 fall back to the configured timeout. */
  function EffectiveTimeout(timeout: Option<int>, config: Config): (t: int)
    ensures timeout.Some? && timeout.value != 0 ==> t == timeout.value
    ensures timeout.None? || timeout.value == 0 ==> t == config.timeout
  {
    match timeout
    case Some(t) => if t != 0 then t else config.timeout
    case None => config.timeout
  }

  class ApptainerEnvironment {
    const config: Config
    const sandboxDir: string
    /** The invocations run so far in this environment's sandbox, oldest first. */
    var history: seq<Invocation>

    constructor (config: Config, sandboxDir: string)
      ensures this.config == config && this.sandboxDir == sandboxDir && history == []
    {
      this.config := config;
      this.sandboxDir := sandboxDir;
      history := [];
    }

    /** The list `cmd` as `execute` grows it, one `extend` at a time. */
    method BuildCommand(command: string, cwd: string, host: map<string, string>) returns (cmd: seq<string>)
      ensures cmd == Argv(config, sandboxDir, host, command, cwd)
    {
      cmd := [config.executable, "exec"];
      cmd := cmd + ["--contain", "--cleanenv", "--no-mount", "hostfs"];
      var workDir := if cwd != "" then cwd else config.cwd;
      assert cmd == [config.executable, "exec"] + Isolation;
      if workDir != "" && workDir != "/" {
        cmd := cmd + ["--pwd", workDir];
      } else {
        assert cmd + [] == cmd;
      }
      assert cmd == [config.executable, "exec"] + Isolation + PwdArgs(WorkDir(cwd, config));
      cmd := ExtendForwarded(cmd, config.forwardEnv, host);
      cmd := ExtendConfigured(cmd, config.env);
      cmd := cmd + ["--writable", sandboxDir, "bash", "-c", command];
    }

    /** `execute(command, cwd, timeout=timeout)`: one run of the argument vector with the
        effective timeout, in the sandbox as earlier runs left it. The result dict holds
        the output and the return code; a timeout comes back as `TimeoutExpired`, which
        the source raises. */
    method Execute(command: string, cwd: string, timeout: Option<int>, host: map<string, string>, run: Run)
      returns (r: RunResult)
      modifies this
      ensures history == old(history) + [Invocation(Argv(config, sandboxDir, host, command, cwd), EffectiveTimeout(timeout, config))]
      ensures r == run(old(history), Invocation(Argv(config, sandboxDir, host, command, cwd), EffectiveTimeout(timeout, config)))
    {
      var cmd := BuildCommand(command, cwd, host);
      var call := Invocation(cmd, if timeout.Some? && timeout.value != 0 then timeout.value else config.timeout);
      r := run(history, call);
      history := history + [call];
    }
  }

  /** The loop over `forward_env`: `--env K=V` for each key the host defines. */
  method ExtendForwarded(cmd0: seq<string>, keys: seq<string>, host: map<string, string>) returns (cmd: seq<string>)
    ensures cmd == cmd0 + EnvArgs(Forwarded(keys, host))
  {
    cmd := cmd0;
    var i := 0;
    while i < |keys|
      invariant 0 <= i <= |keys|
      invariant cmd == cmd0 + EnvArgs(Forwarded(keys[..i], host))
    {
      var key := keys[i];
      ForwardedStep(keys, i, host);
      var f := Forwarded(keys[..i], host);
      if key in host {
        EnvArgsAppend(f, [(key, host[key])]);
        EnvArgsSingle(key, host[key]);
        cmd := cmd + ["--env", key + "=" + host[key]];
        assert cmd == cmd0 + (EnvArgs(f) + ["--env", key + "=" + host[key]]);
      } else {
        assert f + [] == f;
      }
      i := i + 1;
    }
    assert keys[..i] == keys;
  }

  /** The loop over `config.env.items()`: `--env K=V` for each pair. */
  method ExtendConfigured(cmd0: seq<string>, items: Dict) returns (cmd: seq<string>)
    ensures cmd == cmd0 + EnvArgs(items)
  {
    cmd := cmd0;
    var j := 0;
    while j < |items|
      invariant 0 <= j <= |items|
      invariant cmd == cmd0 + EnvArgs(items[..j])
    {
      EnvArgsStep(items, j);
      var key, value := items[j].0, items[j].1;
      cmd := cmd + ["--env", key + "=" + value];
      assert cmd == cmd0 + (EnvArgs(items[..j]) + ["--env", key + "=" + value]);
      j := j + 1;
    }
    assert items[..j] == items;
  }

  lemma ForwardedStep(keys: seq<string>, i: nat, host: map<string, string>)
    requires i < |keys|
    ensures Forwarded(keys[..i + 1], host)
         == Forwarded(keys[..i], host) + (if keys[i] in host then [(keys[i], host[keys[i]])] else [])
  {
    assert keys[..i + 1][..i] == keys[..i];
  }

  lemma EnvArgsSingle(k: string, v: string)
    ensures EnvArgs([(k, v)]) == ["--env", k + "=" + v]
  {
    assert [(k, v)][..0] == [];
  }

  lemma EnvArgsStep(ps: Dict, j: nat)
    requires j < |ps|
    ensures EnvArgs(ps[..j + 1]) == EnvArgs(ps[..j]) + ["--env", ps[j].0 + "=" + ps[j].1]
  {
    assert ps[..j + 1][..j] == ps[..j];
  }

  lemma {:induction false} EnvArgsAppend(a: Dict, b: Dict)
    ensures EnvArgs(a + b) == EnvArgs(a) + EnvArgs(b)
    decreases |b|
  {
    if b == [] {
      assert a + b == a;
    } else {
      var b' := b[..|b| - 1];
      assert (a + b)[..|a + b| - 1] == a + b';
      EnvArgsAppend(a, b');
    }
  }

  /** Two arguments per pair: `--env`, then `K=V`. */
  lemma {:induction false} EnvArgsShape(ps: Dict)
    ensures |EnvArgs(ps)| == 2 * |ps|
    ensures forall i :: 0 <= i < |ps| ==>
      EnvArgs(ps)[2 * i] == "--env" && EnvArgs(ps)[2 * i + 1] == ps[i].0 + "=" + ps[i].1
    decreases |ps|
  {
    if ps != [] {
      EnvArgsShape(ps[..|ps| - 1]);
    }
  }

  /** A key is forwarded, with the host's value, exactly when it is listed and the host
      defines it. */
  lemma {:induction false} ForwardedMembers(keys: seq<string>, host: map<string, string>, k: string, v: string)
    ensures (k, v) in Forwarded(keys, host) <==> k in keys && k in host && v == host[k]
    decreases |keys|
  {
    if keys != [] {
      var init := keys[..|keys| - 1];
      ForwardedMembers(init, host, k, v);
      assert keys == init + [keys[|keys| - 1]];
    }
  }

  /** At most one forwarded pair per listed key; exactly one each, in the listed order,
      when the host defines them all. */
  lemma {:induction false} ForwardedCount(keys: seq<string>, host: map<string, string>)
    ensures |Forwarded(keys, host)| <= |keys|
    ensures (forall i :: 0 <= i < |keys| ==> keys[i] in host) ==>
      |Forwarded(keys, host)| == |keys|
      && forall i :: 0 <= i < |keys| ==> Forwarded(keys, host)[i] == (keys[i], host[keys[i]])
    decreases |keys|
  {
    if keys != [] {
      ForwardedCount(keys[..|keys| - 1], host);
    }
  }

  /** The fixed head of the argument vector. */
  lemma ArgvPrefix(config: Config, sandboxDir: string, host: map<string, string>, command: string, cwd: string)
    ensures var a := Argv(config, sandboxDir, host, command, cwd);
      |a| >= 11 && a[..6] == [config.executable, "exec", "--contain", "--cleanenv", "--no-mount", "hostfs"]
  {
  }

  /** The fixed tail: the sandbox, then the command as a single argument to `bash -c`. */
  lemma ArgvSuffix(config: Config, sandboxDir: string, host: map<string, string>, command: string, cwd: string)
    ensures var a := Argv(config, sandboxDir, host, command, cwd);
      |a| >= 11 && a[|a| - 5..] == ["--writable", sandboxDir, "bash", "-c", command]
  {
  }

  /** The length: six fixed arguments, two for `--pwd`, two per forwarded and per
      configured variable, five fixed ones at the end. */
  lemma ArgvLength(config: Config, sandboxDir: string, host: map<string, string>, command: string, cwd: string)
    ensures var wd := WorkDir(cwd, config);
      |Argv(config, sandboxDir, host, command, cwd)|
        == 6 + (if wd != "" && wd != "/" then 2 else 0)
           + 2 * |Forwarded(config.forwardEnv, host)| + 2 * |config.env| + 5
  {
    EnvArgsShape(Forwarded(config.forwardEnv, host));
    EnvArgsShape(config.env);
  }

  /** The argument vector in three parts: the fixed head with `--pwd`, the `--env`
      arguments, the fixed tail. */
  lemma ArgvParts(config: Config, sandboxDir: string, host: map<string, string>, command: string, cwd: string)
    ensures Argv(config, sandboxDir, host, command, cwd)
         == ([config.executable, "exec"] + Isolation + PwdArgs(WorkDir(cwd, config)))
            + EnvArgs(Forwarded(config.forwardEnv, host) + config.env)
            + ["--writable", sandboxDir, "bash", "-c", command]
  {
    EnvArgsAppend(Forwarded(config.forwardEnv, host), config.env);
  }

  lemma IndexInMiddle<T>(h: seq<T>, e: seq<T>, t: seq<T>, k: nat)
    requires k < |e|
    ensures (h + e + t)[|h| + k] == e[k]
  {
  }

  lemma IndexAfter<T>(h: seq<T>, e: seq<T>, t: seq<T>, k: nat)
    requires k < |t|
    ensures (h + e + t)[|h| + |e| + k] == t[k]
  {
  }

  /** `--pwd` follows the fixed head exactly when the work dir is neither empty nor `/`. */
  lemma ArgvPwd(config: Config, sandboxDir: string, host: map<string, string>, command: string, cwd: string)
    ensures Argv(config, sandboxDir, host, command, cwd)[6] == "--pwd"
        <==> WorkDir(cwd, config) != "" && WorkDir(cwd, config) != "/"
    ensures Argv(config, sandboxDir, host, command, cwd)[6] == "--pwd"
        ==> Argv(config, sandboxDir, host, command, cwd)[7] == WorkDir(cwd, config)
  {
    if PwdArgs(WorkDir(cwd, config)) == [] {
      ArgvWithoutPwd(config, sandboxDir, host, command, cwd);
    } else {
      ArgvWithPwd(config, sandboxDir, host, command, cwd);
    }
  }

  lemma ArgvWithPwd(config: Config, sandboxDir: string, host: map<string, string>, command: string, cwd: string)
    requires PwdArgs(WorkDir(cwd, config)) != []
    ensures Argv(config, sandboxDir, host, command, cwd)[6] == "--pwd"
    ensures Argv(config, sandboxDir, host, command, cwd)[7] == WorkDir(cwd, config)
  {
    var h := [config.executable, "exec"] + Isolation;
    ArgvParts(config, sandboxDir, host, command, cwd);
    IndexInMiddle(h, PwdArgs(WorkDir(cwd, config)), [], 0);
    IndexInMiddle(h, PwdArgs(WorkDir(cwd, config)), [], 1);
  }

  lemma ArgvWithoutPwd(config: Config, sandboxDir: string, host: map<string, string>, command: string, cwd: string)
    requires PwdArgs(WorkDir(cwd, config)) == []
    ensures Argv(config, sandboxDir, host, command, cwd)[6] != "--pwd"
  {
    var h := [config.executable, "exec"] + Isolation;
    var ps := EnvPairs(config, host);
    var t := ["--writable", sandboxDir, "bash", "-c", command];
    ArgvParts(config, sandboxDir, host, command, cwd);
    assert h + PwdArgs(WorkDir(cwd, config)) == h;
    if ps != [] {
      EnvArgsShape(ps);
      IndexInMiddle(h, EnvArgs(ps), t, 0);
      assert EnvArgs(ps)[2 * 0] == "--env";
      assert "--env"[2] != "--pwd"[2];
    } else {
      IndexAfter(h, EnvArgs(ps), t, 0);
      assert "--writable"[2] != "--pwd"[2];
    }
  }

  /** The variables passed with `--env`: the forwarded ones, then the configured ones. */
  function EnvPairs(config: Config, host: map<string, string>): Dict {
    Forwarded(config.forwardEnv, host) + config.env
  }

  /** Between `--pwd` and `--writable` the vector is `--env K=V` for the forwarded
      variables, then for every configured one, and nothing else. */
  lemma ArgvEnv(config: Config, sandboxDir: string, host: map<string, string>, command: string, cwd: string, i: nat)
    requires i < |EnvPairs(config, host)|
    ensures |Argv(config, sandboxDir, host, command, cwd)| == 6 + |PwdArgs(WorkDir(cwd, config))| + 2 * |EnvPairs(config, host)| + 5
    ensures Argv(config, sandboxDir, host, command, cwd)[6 + |PwdArgs(WorkDir(cwd, config))| + 2 * i] == "--env"
    ensures Argv(config, sandboxDir, host, command, cwd)[6 + |PwdArgs(WorkDir(cwd, config))| + 2 * i + 1]
         == EnvPairs(config, host)[i].0 + "=" + EnvPairs(config, host)[i].1
  {
    var ps := EnvPairs(config, host);
    ArgvParts(config, sandboxDir, host, command, cwd);
    EnvArgsShape(ps);
    var h := [config.executable, "exec"] + Isolation + PwdArgs(WorkDir(cwd, config));
    var e := EnvArgs(ps);
    var t := ["--writable", sandboxDir, "bash", "-c", command];
    assert |h| == 6 + |PwdArgs(WorkDir(cwd, config))|;
    IndexInMiddle(h, e, t, 2 * i);
    IndexInMiddle(h, e, t, 2 * i + 1);
  }
}
