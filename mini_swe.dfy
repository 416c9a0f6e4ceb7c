/** rca/utils/mini_swe.py: the container image of an instance, the environment built for
    it, and the evaluation of a model patch in that environment. */
module MiniSwe {
  import opened Wrappers
  import opened PyStr
  import opened PyDict
  import opened ApptainerEnv
  import opened Heredoc

  /** The instance fields the harness reads; `None` is a missing key (for `image_name`,
      also an explicit `None`). */
  datatype Instance = Instance(instanceId: Option<string>, imageName: Option<string>, evalScript: Option<string>)

  /** The exceptions that can leave the functions of this file. `Foreign` is one raised by
      code this model does not see (the environment constructor, the template engine),
      carrying its `str`. */
  datatype PyError =
    | KeyError(key: string)
    | NotImplementedError(message: string)
    | RuntimeError(message: string)
    | Timeout(cmd: seq<string>, timeout: int)
    | Foreign(message: string)

  // ---------------------------------------------------------------------------------------
  // get_docker_image_name

  const GymPrefix: string := "docker.io/xingyaoww/sweb.eval.x86" + "_64."
  const BenchPrefix: string := "docker.io/swebench/sweb.eval.x86" + "_64."
  const SmithPrefix: string := "docker.io/jyangballin/swesmith.x86" + "_64."
  const LatestTag: string := ":latest"

  /** An image family: the repository prefix and what `__` in the id is rewritten to. */
  datatype Family = Family(prefix: string, escape: string)

  /** The family of a data source: a substring test on its lower-cased name, swe-gym first,
      then swe-bench, then swe-smith. */
  function FamilyOf(dataSource: string): (f: Option<Family>)
    ensures f.Some? <==> Contains(Lower(dataSource), "swe-gym") || Contains(Lower(dataSource), "swe-bench")
                         || Contains(Lower(dataSource), "swe-smith")
    ensures Contains(Lower(dataSource), "swe-gym") ==> f == Some(Family(GymPrefix, "_s_"))
    ensures !Contains(Lower(dataSource), "swe-gym") && Contains(Lower(dataSource), "swe-bench")
            ==> f == Some(Family(BenchPrefix, "_1776_"))
    ensures !Contains(Lower(dataSource), "swe-gym") && !Contains(Lower(dataSource), "swe-bench")
            && Contains(Lower(dataSource), "swe-smith")
            ==> f == Some(Family(SmithPrefix, "_1776_"))
  {
    var ds := Lower(dataSource);
    if Contains(ds, "swe-gym") then Some(Family(GymPrefix, "_s_"))
    else if Contains(ds, "swe-bench") then Some(Family(BenchPrefix, "_1776_"))
    else if Contains(ds, "swe-smith") then Some(Family(SmithPrefix, "_1776_"))
    else None
  }

  /** `get_docker_image_name(instance, data_source)`. */
  function ImageName(inst: Instance, dataSource: string): (r: Result<string, PyError>)
    ensures inst.imageName.Some? ==> r == Ok(inst.imageName.value)
    ensures inst.imageName.None? && inst.instanceId.None? ==> r == Err(KeyError("instance_id"))
    ensures inst.imageName.None? && inst.instanceId.Some? && FamilyOf(dataSource).None?
            ==> r == Err(NotImplementedError("Data source: " + dataSource + " is not supported"))
    ensures inst.imageName.None? && inst.instanceId.Some? && FamilyOf(dataSource).Some? ==> r.Ok?
  {
    if inst.imageName.Some? then Ok(inst.imageName.value)
    else if inst.instanceId.None? then Err(KeyError("instance_id"))
    else match FamilyOf(dataSource)
      case None => Err(NotImplementedError("Data source: " + dataSource + " is not supported"))
      case Some(f) => Ok(Lower(f.prefix + Replace(inst.instanceId.value, "__", f.escape) + LatestTag))
  }

  predicate HasDoubleUnderscore(s: string) {
    exists k :: 0 <= k < |s| - 1 && s[k] == '_' && s[k + 1] == '_'
  }

  predicate HasTripleUnderscore(s: string) {
    exists k :: 0 <= k < |s| - 2 && s[k] == '_' && s[k + 1] == '_' && s[k + 2] == '_'
  }

  /** A computed name is its family's prefix, the escaped id and `:latest`, lower-cased:
      it has no upper-case letter and lower-casing it again changes nothing. */
  lemma ImageNameLowercase(inst: Instance, dataSource: string)
    requires inst.imageName.None? && inst.instanceId.Some? && FamilyOf(dataSource).Some?
    ensures ImageName(inst, dataSource).Ok?
    ensures forall i :: 0 <= i < |ImageName(inst, dataSource).value| ==> !IsUpperAscii(ImageName(inst, dataSource).value[i])
    ensures ImageName(inst, dataSource).value
         == FamilyOf(dataSource).value.prefix
            + Lower(Replace(inst.instanceId.value, "__", FamilyOf(dataSource).value.escape)) + LatestTag
  {
    var f := FamilyOf(dataSource).value;
    FamilyCases(dataSource);
    FamilyFacts(f);
    var e := Replace(inst.instanceId.value, "__", f.escape);
    LowerIsLower(f.prefix + e + LatestTag);
    LowerConcat(f.prefix + e, LatestTag);
    LowerConcat(f.prefix, e);
    LowerNoUpper(LatestTag);
  }

  /** A computed name has no `__` exactly when the id has no run of three underscores:
      a run of three is rewritten to the escape followed by a `_`. */
  lemma ImageNameNoDoubleUnderscore(inst: Instance, dataSource: string)
    requires inst.imageName.None? && inst.instanceId.Some? && FamilyOf(dataSource).Some?
    ensures ImageName(inst, dataSource).Ok?
    ensures !HasDoubleUnderscore(ImageName(inst, dataSource).value) <==> !HasTripleUnderscore(inst.instanceId.value)
  {
    var f := FamilyOf(dataSource).value;
    FamilyCases(dataSource);
    FamilyFacts(f);
    NoDoubleWithout(LatestTag);
    assert LatestTag[0] == ':';
    var e := Replace(inst.instanceId.value, "__", f.escape);
    EscapeRuns(inst.instanceId.value, f.escape);
    DoubleConcat(f.prefix, e);
    DoubleConcat(f.prefix + e, LatestTag);
    LowerKeepsDouble(f.prefix + e + LatestTag);
  }

  /** The three families. */
  lemma FamilyCases(dataSource: string)
    ensures FamilyOf(dataSource).Some? ==>
      FamilyOf(dataSource).value == Family(GymPrefix, "_s_")
      || FamilyOf(dataSource).value == Family(BenchPrefix, "_1776_")
      || FamilyOf(dataSource).value == Family(SmithPrefix, "_1776_")
  {
  }

  /** No prefix has `__`, an upper-case letter or a final `_`; every escape starts and
      ends with `_` and has no `__` of its own. */
  lemma FamilyFacts(f: Family)
    requires f == Family(GymPrefix, "_s_") || f == Family(BenchPrefix, "_1776_") || f == Family(SmithPrefix, "_1776_")
    ensures !HasDoubleUnderscore(f.prefix) && f.prefix != [] && f.prefix[|f.prefix| - 1] == '.'
    ensures Lower(f.prefix) == f.prefix
    ensures |f.escape| >= 2 && f.escape[0] == '_' && f.escape[|f.escape| - 1] == '_'
    ensures !HasDoubleUnderscore(f.escape)
  {
    if f.escape == "_s_" {
      GymFacts();
      EscapeNoDouble("s");
    } else {
      BenchSmithFacts();
      EscapeNoDouble("1776");
    }
  }

  lemma GymFacts()
    ensures !HasDoubleUnderscore(GymPrefix) && GymPrefix[|GymPrefix| - 1] == '.'
    ensures Lower(GymPrefix) == GymPrefix
  {
    PrefixFacts("docker.io/xingyaoww/sweb.eval.x86");
  }

  lemma BenchSmithFacts()
    ensures !HasDoubleUnderscore(BenchPrefix) && BenchPrefix[|BenchPrefix| - 1] == '.'
    ensures Lower(BenchPrefix) == BenchPrefix
    ensures !HasDoubleUnderscore(SmithPrefix) && SmithPrefix[|SmithPrefix| - 1] == '.'
    ensures Lower(SmithPrefix) == SmithPrefix
  {
    PrefixFacts("docker.io/swebench/sweb.eval.x86");
    PrefixFacts("docker.io/jyangballin/swesmith.x86");
  }

  lemma PrefixFacts(a: string)
    requires Plain(a)
    ensures !HasDoubleUnderscore(a + "_64.") && (a + "_64.")[|a + "_64."| - 1] == '.'
    ensures Lower(a + "_64.") == a + "_64."
  {
    assert a + "_64." == a + "_" + "64.";
    NoDoubleAround(a, "64.");
    LowerNoUpper(a + "_64.");
  }

  lemma EscapeNoDouble(x: string)
    requires x != [] && Plain(x)
    ensures !HasDoubleUnderscore("_" + x + "_")
  {
    var s := "_" + x + "_";
    forall k | 0 <= k < |s| - 1 ensures !(s[k] == '_' && s[k + 1] == '_') {
      if k < |x| {
        assert s[k + 1] == x[k];
      } else {
        assert s[k] == x[k - 1];
      }
    }
  }

  /** `___` is where the iff above needs its condition: `a___b` becomes `a_s__b`. */
  lemma GymTripleUnderscore()
    ensures Replace("a___b", "__", "_s_") == "a_s__b"
    ensures HasDoubleUnderscore("a_s__b")
  {
    assert "a___b"[1..] == "___b";
    assert "___b"[2..] == "_b";
    assert "_b"[1..] == "b";
    assert "a_s__b"[3] == '_' && "a_s__b"[4] == '_';
  }

  /** The id of the swe-smith example of tests/test_eval.py, and its image. */
  const SmithSampleId: string :=
    "oauthlib" + "__" + "oauthlib.1fd52536.combine" + "_" + "file" + "__" + "09vlzwgc"
  const SmithSampleImage: string :=
    SmithPrefix + "oauthlib" + "_1776_" + "oauthlib.1fd52536.combine" + "_" + "file" + "_1776_" + "09vlzwgc" + LatestTag

  lemma SmithSample()
    ensures ImageName(Instance(Some(SmithSampleId), None, None), "swe-smith") == Ok(SmithSampleImage)
  {
    SmithImage("oauthlib", "oauthlib.1fd52536.combine", "file", "09vlzwgc");
  }

  /** A swe-smith id with two `__` and one lone `_`, all in lower case. */
  lemma SmithImage(a: string, b: string, c: string, d: string)
    requires Plain(a) && Plain(b) && Plain(c) && Plain(d) && c != []
    ensures ImageName(Instance(Some(a + "__" + b + "_" + c + "__" + d), None, None), "swe-smith")
         == Ok(SmithPrefix + a + "_1776_" + b + "_" + c + "_1776_" + d + LatestTag)
  {
    SmithFamily();
    SmithName(a, b, c, d);
    Assoc7Framed(SmithPrefix, a, "_1776_", b, "_", c, "_1776_", d, LatestTag);
    Assoc7(a, "_1776_", b, "_", c, "_1776_", d);
  }

  /** The escaped id, framed by the swe-smith prefix and the tag, is already lower case. */
  lemma SmithName(a: string, b: string, c: string, d: string)
    requires Plain(a) && Plain(b) && Plain(c) && Plain(d) && c != []
    ensures Lower(SmithPrefix + Replace(a + "__" + b + "_" + c + "__" + d, "__", "_1776_") + LatestTag)
         == SmithPrefix + (a + "_1776_" + b + "_" + c + "_1776_" + d) + LatestTag
  {
    var r := a + "_1776_" + b + "_" + c + "_1776_" + d;
    SmithEscape(a, b, c, d);
    SmithLower(a, b, c, d);
    LowerConcat(SmithPrefix + r, LatestTag);
    LowerConcat(SmithPrefix, r);
    BenchSmithFacts();
    LowerNoUpper(LatestTag);
  }

  lemma SmithEscape(a: string, b: string, c: string, d: string)
    requires Plain(a) && Plain(b) && Plain(c) && Plain(d) && c != []
    ensures Replace(a + "__" + b + "_" + c + "__" + d, "__", "_1776_") == a + "_1776_" + b + "_" + c + "_1776_" + d
  {
    var e := "_1776_";
    var t4 := "__" + d;
    var t3 := c + t4;
    var t2 := "_" + t3;
    var t1 := b + t2;
    var t0 := "__" + t1;
    ReplaceNone(d, e);
    ReplaceEscape(d, e);
    ReplaceCopy(c, t4, e);
    LoneUnderscore(t3, e);
    ReplaceCopy(b, t2, e);
    ReplaceEscape(t1, e);
    ReplaceCopy(a, t0, e);
    Assoc7(a, "__", b, "_", c, "__", d);
    Assoc7(a, e, b, "_", c, e, d);
  }

  lemma SmithLower(a: string, b: string, c: string, d: string)
    requires Plain(a) && Plain(b) && Plain(c) && Plain(d)
    ensures Lower(a + "_1776_" + b + "_" + c + "_1776_" + d) == a + "_1776_" + b + "_" + c + "_1776_" + d
  {
    var e := "_1776_";
    LowerNoUpper(a);
    LowerNoUpper(b);
    LowerNoUpper(c);
    LowerNoUpper(d);
    LowerNoUpper(e);
    LowerNoUpper("_");
    LowerConcat(e, d);
    LowerConcat(c, e + d);
    LowerConcat("_", c + (e + d));
    LowerConcat(b, "_" + (c + (e + d)));
    LowerConcat(e, b + ("_" + (c + (e + d))));
    LowerConcat(a, e + (b + ("_" + (c + (e + d)))));
    Assoc7(a, e, b, "_", c, e, d);
  }

  lemma Assoc7<T>(a: seq<T>, b: seq<T>, c: seq<T>, d: seq<T>, e: seq<T>, f: seq<T>, g: seq<T>)
    ensures a + b + c + d + e + f + g == a + (b + (c + (d + (e + (f + g)))))
  {
  }

  lemma Assoc7Framed<T>(p: seq<T>, a: seq<T>, b: seq<T>, c: seq<T>, d: seq<T>, e: seq<T>, f: seq<T>, g: seq<T>, q: seq<T>)
    ensures p + a + b + c + d + e + f + g + q == p + (a + (b + (c + (d + (e + (f + g)))))) + q
  {
  }

  lemma SmithFamily()
    ensures FamilyOf("swe-smith") == Some(Family(SmithPrefix, "_1776_"))
  {
    LowerNoUpper("swe-smith");
    NotContainsByChar("swe-smith", "swe-gym", 'g');
    NotContainsByChar("swe-smith", "swe-bench", 'b');
    assert OccursAt("swe-smith", "swe-smith", 0);
  }

  // Helpers about `Lower`, `Replace` and runs of underscores.

  /** Neither an underscore nor an upper-case letter. */
  predicate Plain(s: string) {
    forall i :: 0 <= i < |s| ==> s[i] != '_' && !IsUpperAscii(s[i])
  }

  lemma LowerNoUpper(s: string)
    requires forall i :: 0 <= i < |s| ==> !IsUpperAscii(s[i])
    ensures Lower(s) == s
  {
  }

  lemma LowerKeepsDouble(s: string)
    ensures HasDoubleUnderscore(Lower(s)) <==> HasDoubleUnderscore(s)
  {
    assert forall k :: 0 <= k < |s| ==> (Lower(s)[k] == '_' <==> s[k] == '_');
  }

  lemma NoDoubleWithout(s: string)
    requires forall i :: 0 <= i < |s| ==> s[i] != '_'
    ensures !HasDoubleUnderscore(s)
  {
  }

  lemma NoDoubleAround(a: string, b: string)
    requires Plain(a) && Plain(b)
    ensures !HasDoubleUnderscore(a + "_" + b)
  {
    var s := a + "_" + b;
    forall k | 0 <= k < |s| - 1 ensures !(s[k] == '_' && s[k + 1] == '_') {
      if k < |a| {
        assert s[k] == a[k];
      } else {
        assert s[k + 1] == b[k - |a|];
      }
    }
  }

  /** `__` in a concatenation: in either part, or across the seam. */
  lemma DoubleConcat(a: string, b: string)
    ensures HasDoubleUnderscore(a + b)
        <==> HasDoubleUnderscore(a) || HasDoubleUnderscore(b) || (a != [] && b != [] && a[|a| - 1] == '_' && b[0] == '_')
  {
    var s := a + b;
    if HasDoubleUnderscore(s) {
      var k :| 0 <= k < |s| - 1 && s[k] == '_' && s[k + 1] == '_';
      if k + 1 < |a| {
        assert a[k] == '_' && a[k + 1] == '_';
      } else if k >= |a| {
        assert b[k - |a|] == '_' && b[k - |a| + 1] == '_';
      }
    }
    if HasDoubleUnderscore(a) {
      var k :| 0 <= k < |a| - 1 && a[k] == '_' && a[k + 1] == '_';
      assert s[k] == '_' && s[k + 1] == '_';
    }
    if HasDoubleUnderscore(b) {
      var k :| 0 <= k < |b| - 1 && b[k] == '_' && b[k + 1] == '_';
      assert s[|a| + k] == '_' && s[|a| + k + 1] == '_';
    }
    if a != [] && b != [] && a[|a| - 1] == '_' && b[0] == '_' {
      assert s[|a| - 1] == '_' && s[|a|] == '_';
    }
  }

  /** `___` in a string with a first character `x`. */
  lemma TripleCons(x: char, t: string)
    ensures HasTripleUnderscore([x] + t)
        <==> (x == '_' && |t| >= 2 && t[0] == '_' && t[1] == '_') || HasTripleUnderscore(t)
  {
    var s := [x] + t;
    if HasTripleUnderscore(s) {
      var k :| 0 <= k < |s| - 2 && s[k] == '_' && s[k + 1] == '_' && s[k + 2] == '_';
      if k > 0 {
        assert t[k - 1] == '_' && t[k] == '_' && t[k + 1] == '_';
      }
    }
    if HasTripleUnderscore(t) {
      var k :| 0 <= k < |t| - 2 && t[k] == '_' && t[k + 1] == '_' && t[k + 2] == '_';
      assert s[k + 1] == '_' && s[k + 2] == '_' && s[k + 3] == '_';
    }
    if x == '_' && |t| >= 2 && t[0] == '_' && t[1] == '_' {
      assert s[0] == '_' && s[1] == '_' && s[2] == '_';
    }
  }

  /** Rewriting `__` keeps the string non-empty and keeps whether it starts with `_`,
      for an escape that starts with `_`. */
  lemma ReplaceHead(s: string, e: string)
    requires s != [] && e != [] && e[0] == '_'
    ensures Replace(s, "__", e) != []
    ensures Replace(s, "__", e)[0] == '_' <==> s[0] == '_'
  {
    if |s| >= 2 && s[..2] == "__" {
      assert s[0] == s[..2][0];
    }
  }

  /** The rewritten id has `__` exactly when the id has `___`, for an escape that starts
      and ends with `_` and has no `__` itself. */
  lemma {:induction false} EscapeRuns(s: string, e: string)
    requires |e| >= 2 && e[0] == '_' && e[|e| - 1] == '_' && !HasDoubleUnderscore(e)
    ensures HasDoubleUnderscore(Replace(s, "__", e)) <==> HasTripleUnderscore(s)
    decreases |s|
  {
    if |s| < 2 {
      assert !HasDoubleUnderscore(s);
      assert !HasTripleUnderscore(s);
    } else if s[..2] == "__" {
      var t := s[2..];
      var r := Replace(t, "__", e);
      EscapeRuns(t, e);
      DoubleConcat(e, r);
      if t != [] {
        ReplaceHead(t, e);
      }
      assert s == [s[0]] + ([s[1]] + t);
      assert s[0] == '_' && s[1] == '_' by {
        assert s[0] == s[..2][0] && s[1] == s[..2][1];
      }
      TripleCons(s[1], t);
      TripleCons(s[0], [s[1]] + t);
    } else {
      var t := s[1..];
      var r := Replace(t, "__", e);
      EscapeRuns(t, e);
      DoubleConcat([s[0]], r);
      ReplaceHead(t, e);
      assert s[..2] == [s[0], s[1]];
      assert s == [s[0]] + t;
      TripleCons(s[0], t);
    }
  }

  lemma {:induction false} ReplaceCopy(a: string, rest: string, e: string)
    requires Plain(a)
    ensures Replace(a + rest, "__", e) == a + Replace(rest, "__", e)
    decreases |a|
  {
    if a != [] {
      var s := a + rest;
      if |s| >= 2 {
        assert s[..2][0] == a[0];
      }
      assert s[1..] == a[1..] + rest;
      ReplaceCopy(a[1..], rest, e);
    } else {
      assert a + rest == rest;
    }
  }

  lemma ReplaceNone(a: string, e: string)
    requires Plain(a)
    ensures Replace(a, "__", e) == a
  {
    ReplaceCopy(a, [], e);
    assert a + [] == a;
  }

  lemma ReplaceEscape(rest: string, e: string)
    ensures Replace("__" + rest, "__", e) == e + Replace(rest, "__", e)
  {
    var s := "__" + rest;
    assert s[..2] == "__";
    assert s[2..] == rest;
  }

  lemma LoneUnderscore(rest: string, e: string)
    requires rest != [] && rest[0] != '_'
    ensures Replace("_" + rest, "__", e) == "_" + Replace(rest, "__", e)
  {
    var s := "_" + rest;
    assert s[..2][1] == rest[0];
    assert s[1..] == rest;
  }

  // ---------------------------------------------------------------------------------------
  // get_environment

  /** The `environment` section of the configuration: the image `get_environment` sets, and
      the other settings, handed on to the environment's constructor uninterpreted. */
  datatype EnvSection = EnvSection(image: Option<string>, settings: map<string, string>)

  /** The configuration dict of `get_environment` and `evaluate_trajectory`. */
  class SweConfig {
    /** `config["environment"]`, None while the key is missing. */
    var environment: Option<EnvSection>
    /** `config.get("run", {}).get("env_startup_command")`. */
    const startupCommand: Option<string>
    /** `config.get("cwd")`. */
    const cwd: Option<string>

    constructor (environment: Option<EnvSection>, startupCommand: Option<string>, cwd: Option<string>)
      ensures this.environment == environment && this.startupCommand == startupCommand && this.cwd == cwd
    {
      this.environment := environment;
      this.startupCommand := startupCommand;
      this.cwd := cwd;
    }
  }

  /** What the evaluation gets from code and processes outside this model. */
  datatype Collaborators = Collaborators(
    /** `ApptainerEnvironment(**env_config)`: the configuration and the sandbox directory
        it ends up with, or the text of the exception it raises. */
    build: EnvSection -> Result<(Config, string), string>,
    /** Strict Jinja rendering of a template with the instance's fields, or the text of
        the exception it raises. */
    render: (string, Instance) -> Result<string, string>,
    /** The text of the dict `{"output": ..., "returncode": ...}` in an f-string. */
    showOutcome: (string, int) -> string,
    /** The text of a `TimeoutExpired` for an argument vector and a timeout. */
    showTimeout: (seq<string>, int) -> string,
    /** The process runs. */
    run: Run,
    /** The host environment `os.getenv` reads. */
    host: map<string, string>)

  /** `str(e)` of an exception. */
  function Str(e: PyError, c: Collaborators): string {
    match e
    case KeyError(k) => "'" + k + "'"
    case NotImplementedError(m) => m
    case RuntimeError(m) => m
    case Timeout(cmd, t) => c.showTimeout(cmd, t)
    case Foreign(m) => m
  }

  /** The section after `config.setdefault("environment", {})` and, when the image name
      is known, `env_config["image"] = "docker://" + image_name`. */
  function SectionAfter(section: Option<EnvSection>, name: Result<string, PyError>): EnvSection {
    var s := if section.Some? then section.value else EnvSection(None, map[]);
    if name.Ok? then s.(image := Some("docker://" + name.value)) else s
  }

  /** An environment as the model sees it: its configuration, its sandbox and what already
      ran there. */
  datatype EnvState = EnvState(config: Config, sandboxDir: string, history: seq<Invocation>)

  /** A startup command runs when it is truthy: present and not empty. */
  predicate Truthy(cmd: Option<string>) {
    cmd.Some? && cmd.value != ""
  }

  /** The invocation of a startup command: no work dir, the configured timeout. */
  function StartupCall(cfg: Config, dir: string, command: string, c: Collaborators): Invocation {
    Invocation(Argv(cfg, dir, c.host, command, ""), EffectiveTimeout(None, cfg))
  }

  /** `get_environment(config, instance, data_source)`: the environment, or the exception. */
  function CreateEnv(section: Option<EnvSection>, startup: Option<string>, inst: Instance, dataSource: string,
                     c: Collaborators): Result<EnvState, PyError>
  {
    match ImageName(inst, dataSource)
    case Err(e) => Err(e)
    case Ok(name) =>
      match c.build(SectionAfter(section, Ok(name)))
      case Err(m) => Err(Foreign(m))
      case Ok(built) =>
        if !Truthy(startup) then Ok(EnvState(built.0, built.1, []))
        else
          match c.render(startup.value, inst)
          case Err(m) => Err(Foreign(m))
          case Ok(cmd) =>
            var call := StartupCall(built.0, built.1, cmd, c);
            match c.run([], call)
            case TimeoutExpired => Err(Timeout(call.argv, call.timeout))
            case Completed(out, rc) =>
              if rc != 0 then Err(RuntimeError("Error executing startup command: " + c.showOutcome(out, rc)))
              else Ok(EnvState(built.0, built.1, [call]))
  }

  /** `get_environment`: the configuration is updated in place (the setdefault, then the
      image), the environment is built, and the startup command, when there is one, runs
      in it. */
  method GetEnvironment(config: SweConfig, inst: Instance, dataSource: string, c: Collaborators)
    returns (r: Result<ApptainerEnvironment, PyError>)
    modifies config
    ensures config.environment == Some(SectionAfter(old(config.environment), ImageName(inst, dataSource)))
    ensures r.Ok? <==> CreateEnv(old(config.environment), config.startupCommand, inst, dataSource, c).Ok?
    ensures r.Err? ==> r.error == CreateEnv(old(config.environment), config.startupCommand, inst, dataSource, c).error
    ensures r.Ok? ==> fresh(r.value)
    ensures r.Ok? ==> EnvState(r.value.config, r.value.sandboxDir, r.value.history)
                      == CreateEnv(old(config.environment), config.startupCommand, inst, dataSource, c).value
  {
    var section := if config.environment.Some? then config.environment.value else EnvSection(None, map[]);
    config.environment := Some(section);
    var name := ImageName(inst, dataSource);
    if name.Err? {
      return Err(name.error);
    }
    section := section.(image := Some("docker://" + name.value));
    config.environment := Some(section);
    var built := c.build(section);
    if built.Err? {
      return Err(Foreign(built.error));
    }
    var env := new ApptainerEnvironment(built.value.0, built.value.1);
    if config.startupCommand.Some? && config.startupCommand.value != "" {
      var rendered := c.render(config.startupCommand.value, inst);
      if rendered.Err? {
        return Err(Foreign(rendered.error));
      }
      var out := env.Execute(rendered.value, "", None, c.host, c.run);
      var call := env.history[|env.history| - 1];
      if out.TimeoutExpired? {
        return Err(Timeout(call.argv, call.timeout));
      }
      if out.returncode != 0 {
        return Err(RuntimeError("Error executing startup command: " + c.showOutcome(out.output, out.returncode)));
      }
    }
    r := Ok(env);
  }

  // ---------------------------------------------------------------------------------------
  // evaluate_trajectory

  /** `MiniSWEEvaluationResult`. */
  datatype EvalResult = EvalResult(instanceId: string, resolved: bool, evalError: Option<string>)

  predicate IsHexDigit(ch: char) {
    '0' <= ch <= '9' || 'a' <= ch <= 'f'
  }

  /** `f"PATCH_{uuid.uuid4().hex}"`: the prefix and 32 lower-case hex digits. */
  predicate ValidDelimiter(d: string) {
    |d| == 38 && d[..6] == "PATCH_" && forall i :: 6 <= i < 38 ==> IsHexDigit(d[i])
  }

  /** `git apply <<'D'`, the patch, and `D` on a line of its own. */
  function ApplyCommand(delimiter: string, patch: string): string {
    Framed("git apply <<'" + delimiter + "'", patch, delimiter)
  }

  /** `bash <<'EOF'`, the script, and `EOF`: the delimiter here is fixed. */
  function EvalCommand(script: string): string {
    Framed("bash <<'EOF'", script, "EOF")
  }

  /** `sweagent_config.get("cwd", "/")`. */
  function ApplyCwd(cwd: Option<string>): string {
    if cwd.Some? then cwd.value else "/"
  }

  const EnvFailurePrefix: string := "Env creation failed with "
  const EvalTimeout: int := 3600
  const TruncationNote: string := "(truncated to last 1000 characters)\n"

  /** The invocation that applies the patch: the configured work dir and timeout. */
  function ApplyCall(env: EnvState, delimiter: string, patch: string, cwd: Option<string>, c: Collaborators): Invocation {
    Invocation(Argv(env.config, env.sandboxDir, c.host, ApplyCommand(delimiter, patch), ApplyCwd(cwd)),
               EffectiveTimeout(None, env.config))
  }

  /** The invocation that runs the evaluation script: no work dir, one hour. */
  function EvalCall(env: EnvState, script: string, c: Collaborators): Invocation {
    Invocation(Argv(env.config, env.sandboxDir, c.host, EvalCommand(script), ""),
               EffectiveTimeout(Some(EvalTimeout), env.config))
  }

  /** What `evaluate_trajectory` returns or raises, and the invocations it makes itself in
      the environment (the startup command is the environment's own). */
  datatype Evaluation = Evaluation(result: Result<EvalResult, PyError>, calls: seq<Invocation>)

  /** The diagnostic of a failed evaluation script: the note, then the last 1000
      characters of its output. */
  function Diagnostic(output: string): string {
    TruncationNote + Tail(output, 1000)
  }

  /** `evaluate_trajectory(instance, model_patch, sweagent_config, data_source)`. */
  function Evaluate(inst: Instance, patch: string, section: Option<EnvSection>, startup: Option<string>,
                    cwd: Option<string>, dataSource: string, delimiter: string, c: Collaborators): Evaluation
  {
    if inst.instanceId.None? then Evaluation(Err(KeyError("instance_id")), [])
    else
      var id := inst.instanceId.value;
      match CreateEnv(section, startup, inst, dataSource, c)
      case Err(e) => Evaluation(Ok(EvalResult(id, false, Some(EnvFailurePrefix + Str(e, c)))), [])
      case Ok(env) =>
        var apply := ApplyCall(env, delimiter, patch, cwd, c);
        match c.run(env.history, apply)
        case TimeoutExpired => Evaluation(Err(Timeout(apply.argv, apply.timeout)), [apply])
        case Completed(out, rc) =>
          if rc != 0 then Evaluation(Ok(EvalResult(id, false, Some(out))), [apply])
          else if inst.evalScript.None? then Evaluation(Err(KeyError("eval_script")), [apply])
          else
            var test := EvalCall(env, inst.evalScript.value, c);
            match c.run(env.history + [apply], test)
            case TimeoutExpired => Evaluation(Err(Timeout(test.argv, test.timeout)), [apply, test])
            case Completed(out', rc') =>
              Evaluation(Ok(EvalResult(id, rc' == 0, if rc' == 0 then None else Some(Diagnostic(out')))), [apply, test])
  }

  /** `evaluate_trajectory`: the result dict is filled in step by step around the
      environment's `execute` calls; `calls` are those calls. */
  method EvaluateTrajectory(inst: Instance, patch: string, config: SweConfig, dataSource: string,
                            delimiter: string, c: Collaborators)
    returns (r: Result<EvalResult, PyError>, ghost calls: seq<Invocation>)
    requires ValidDelimiter(delimiter)
    modifies config
    ensures Evaluation(r, calls)
         == Evaluate(inst, patch, old(config.environment), config.startupCommand, config.cwd, dataSource, delimiter, c)
    ensures config.environment
         == if inst.instanceId.None? then old(config.environment)
            else Some(SectionAfter(old(config.environment), ImageName(inst, dataSource)))
  {
    calls := [];
    if inst.instanceId.None? {
      return Err(KeyError("instance_id")), [];
    }
    var ret := EvalResult(inst.instanceId.value, false, None);
    var created := GetEnvironment(config, inst, dataSource, c);
    if created.Err? {
      ret := ret.(evalError := Some(EnvFailurePrefix + Str(created.error, c)));
      return Ok(ret), [];
    }
    var env := created.value;
    ghost var st := EnvState(env.config, env.sandboxDir, env.history);
    assert CreateEnv(old(config.environment), config.startupCommand, inst, dataSource, c) == Ok(st);
    var command := ApplyCommand(delimiter, patch);
    var obs := env.Execute(command, if config.cwd.Some? then config.cwd.value else "/", None, c.host, c.run);
    var applied := env.history[|env.history| - 1];
    assert applied == ApplyCall(st, delimiter, patch, config.cwd, c);
    assert obs == c.run(st.history, applied) && env.history == st.history + [applied];
    calls := [applied];
    if obs.TimeoutExpired? {
      return Err(Timeout(applied.argv, applied.timeout)), calls;
    }
    if obs.returncode != 0 {
      ret := ret.(evalError := Some(obs.output));
    } else {
      if inst.evalScript.None? {
        return Err(KeyError("eval_script")), calls;
      }
      var evalCmd := EvalCommand(inst.evalScript.value);
      obs := env.Execute(evalCmd, "", Some(EvalTimeout), c.host, c.run);
      var tested := env.history[|env.history| - 1];
      assert tested == EvalCall(st, inst.evalScript.value, c);
      assert obs == c.run(st.history + [applied], tested);
      calls := calls + [tested];
      if obs.TimeoutExpired? {
        return Err(Timeout(tested.argv, tested.timeout)), calls;
      }
      ret := ret.(resolved := obs.returncode == 0);
      ret := ret.(evalError := if !ret.resolved then Some(TruncationNote + Tail(obs.output, 1000)) else None);
    }
    r := Ok(ret);
  }

  // ---------------------------------------------------------------------------------------
  // What the framing delivers

  lemma DelimiterOneLine(d: string)
    requires ValidDelimiter(d)
    ensures '\n' !in d && '\n' !in "git apply <<'" + d + "'"
  {
    forall i | 0 <= i < |d| ensures d[i] != '\n' {
      if i < 6 {
        assert d[i] == d[..6][i];
      }
    }
  }

  /** The patch reaches `git apply` intact, with a final newline, exactly when no line of
      it is the delimiter; a line equal to the delimiter cuts it short. */
  lemma ApplyFraming(delimiter: string, patch: string)
    requires ValidDelimiter(delimiter)
    ensures CommandLine(ApplyCommand(delimiter, patch)) == "git apply <<'" + delimiter + "'"
    ensures HereDocInput(ApplyCommand(delimiter, patch), delimiter) == patch + "\n" <==> delimiter !in Lines(patch)
    ensures delimiter in Lines(patch) ==> |HereDocInput(ApplyCommand(delimiter, patch), delimiter)| < |patch| + 1
  {
    DelimiterOneLine(delimiter);
    FramedDelivers("git apply <<'" + delimiter + "'", patch, delimiter);
  }

  /** The script reaches `bash` intact exactly when no line of it is `EOF`. */
  lemma EvalFraming(script: string)
    ensures CommandLine(EvalCommand(script)) == "bash <<'EOF'"
    ensures HereDocInput(EvalCommand(script), "EOF") == script + "\n" <==> "EOF" !in Lines(script)
  {
    FramedDelivers("bash <<'EOF'", script, "EOF");
  }

  /** With the fixed delimiter, a script with a line `EOF` is cut short. */
  lemma EvalScriptWithEofLine(a: string, b: string)
    ensures var script := a + "\n" + "EOF" + "\n" + b;
      |HereDocInput(EvalCommand(script), "EOF")| < |script| + 1
  {
    var script := a + "\n" + "EOF" + "\n" + b;
    EofLine(a, b, script);
    FramedDelivers("bash <<'EOF'", script, "EOF");
  }

  lemma EofLine(a: string, b: string, script: string)
    requires script == a + "\n" + "EOF" + "\n" + b
    ensures "EOF" in Lines(script)
  {
    var rest := "EOF" + "\n" + b;
    assert script == a + "\n" + rest;
    LinesJoin(a, rest);
    LinesJoin("EOF", b);
    LinesSingle("EOF");
    assert Lines(rest) == ["EOF"] + Lines(b);
    assert Lines(script) == Lines(a) + Lines(rest);
    assert Lines(script)[|Lines(a)|] == "EOF";
  }

  // ---------------------------------------------------------------------------------------
  // What get_environment and evaluate_trajectory promise

  /** A built environment had its image name resolved and set as `docker://` + name in the
      section handed to the constructor. */
  lemma CreateEnvImage(section: Option<EnvSection>, startup: Option<string>, inst: Instance, dataSource: string,
                       c: Collaborators)
    requires CreateEnv(section, startup, inst, dataSource, c).Ok?
    ensures ImageName(inst, dataSource).Ok?
    ensures SectionAfter(section, ImageName(inst, dataSource)).image == Some("docker://" + ImageName(inst, dataSource).value)
    ensures c.build(SectionAfter(section, ImageName(inst, dataSource))).Ok?
    ensures var b := c.build(SectionAfter(section, ImageName(inst, dataSource))).value;
      && CreateEnv(section, startup, inst, dataSource, c).value.config == b.0
      && CreateEnv(section, startup, inst, dataSource, c).value.sandboxDir == b.1
  {
  }

  /** A startup command that returns non-zero makes `get_environment` raise. */
  lemma StartupFailureRaises(section: Option<EnvSection>, startup: Option<string>, inst: Instance, dataSource: string,
                             c: Collaborators, cmd: string, out: string, rc: int)
    requires ImageName(inst, dataSource).Ok? && c.build(SectionAfter(section, ImageName(inst, dataSource))).Ok?
    requires Truthy(startup) && c.render(startup.value, inst) == Ok(cmd)
    requires var b := c.build(SectionAfter(section, ImageName(inst, dataSource))).value;
      c.run([], StartupCall(b.0, b.1, cmd, c)) == Completed(out, rc)
    requires rc != 0
    ensures CreateEnv(section, startup, inst, dataSource, c)
         == Err(RuntimeError("Error executing startup command: " + c.showOutcome(out, rc)))
  {
  }

  /** Any failure to create the environment ends the evaluation with an unresolved result
      that names it, before anything runs in an environment. */
  lemma EnvFailureReported(inst: Instance, patch: string, section: Option<EnvSection>, startup: Option<string>,
                           cwd: Option<string>, dataSource: string, delimiter: string, c: Collaborators)
    requires inst.instanceId.Some? && CreateEnv(section, startup, inst, dataSource, c).Err?
    ensures Evaluate(inst, patch, section, startup, cwd, dataSource, delimiter, c)
         == Evaluation(Ok(EvalResult(inst.instanceId.value, false,
                                     Some(EnvFailurePrefix + Str(CreateEnv(section, startup, inst, dataSource, c).error, c)))),
                       [])
  {
    var ev := Evaluate(inst, patch, section, startup, cwd, dataSource, delimiter, c);
    var created := CreateEnv(section, startup, inst, dataSource, c);
    assert ev.calls == [];
    assert ev.result.Ok?;
    assert ev.result.value.instanceId == inst.instanceId.value;
    assert ev.result.value.evalError == Some(EnvFailurePrefix + Str(created.error, c));
  }

  /** An unsupported data source gives an unresolved result, not an exception. */
  lemma UnsupportedSourceReported(inst: Instance, patch: string, section: Option<EnvSection>, startup: Option<string>,
                                  cwd: Option<string>, dataSource: string, delimiter: string, c: Collaborators)
    requires inst.instanceId.Some? && inst.imageName.None? && FamilyOf(dataSource).None?
    ensures Evaluate(inst, patch, section, startup, cwd, dataSource, delimiter, c)
         == Evaluation(Ok(EvalResult(inst.instanceId.value, false,
                                     Some(EnvFailurePrefix + ("Data source: " + dataSource + " is not supported")))),
                       [])
  {
    assert CreateEnv(section, startup, inst, dataSource, c)
        == Err(NotImplementedError("Data source: " + dataSource + " is not supported"));
    EnvFailureReported(inst, patch, section, startup, cwd, dataSource, delimiter, c);
  }

  /** The `RuntimeError` of a failing startup command is caught too: it becomes an
      unresolved result rather than reaching the caller. */
  lemma StartupFailureCaught(inst: Instance, patch: string, section: Option<EnvSection>, startup: Option<string>,
                             cwd: Option<string>, dataSource: string, delimiter: string, c: Collaborators,
                             cmd: string, out: string, rc: int)
    requires inst.instanceId.Some?
    requires ImageName(inst, dataSource).Ok? && c.build(SectionAfter(section, ImageName(inst, dataSource))).Ok?
    requires Truthy(startup) && c.render(startup.value, inst) == Ok(cmd)
    requires var b := c.build(SectionAfter(section, ImageName(inst, dataSource))).value;
      c.run([], StartupCall(b.0, b.1, cmd, c)) == Completed(out, rc)
    requires rc != 0
    ensures Evaluate(inst, patch, section, startup, cwd, dataSource, delimiter, c)
         == Evaluation(Ok(EvalResult(inst.instanceId.value, false,
                                     Some(EnvFailurePrefix + ("Error executing startup command: " + c.showOutcome(out, rc))))),
                       [])
  {
    StartupFailureRaises(section, startup, inst, dataSource, c, cmd, out, rc);
    EnvFailureReported(inst, patch, section, startup, cwd, dataSource, delimiter, c);
  }

  /** The calls made: none before an environment exists; then the patch application, in
      the configured work dir (default `/`) with the configured timeout; then, only after
      it succeeded and when the instance has a script, the script, with the hour. */
  lemma CallsMade(inst: Instance, patch: string, section: Option<EnvSection>, startup: Option<string>,
                  cwd: Option<string>, dataSource: string, delimiter: string, c: Collaborators)
    ensures var ev := Evaluate(inst, patch, section, startup, cwd, dataSource, delimiter, c);
      && |ev.calls| <= 2
      && (ev.calls != [] ==> inst.instanceId.Some? && CreateEnv(section, startup, inst, dataSource, c).Ok?)
      && (ev.calls != [] ==>
            var env := CreateEnv(section, startup, inst, dataSource, c).value;
            && ev.calls[0] == ApplyCall(env, delimiter, patch, cwd, c)
            && ev.calls[0].timeout == EffectiveTimeout(None, env.config))
      && (|ev.calls| == 2 ==>
            var env := CreateEnv(section, startup, inst, dataSource, c).value;
            && c.run(env.history, ev.calls[0]).Completed?
            && c.run(env.history, ev.calls[0]).returncode == 0
            && inst.evalScript.Some?
            && ev.calls[1] == EvalCall(env, inst.evalScript.value, c)
            && ev.calls[1].timeout == 3600)
  {
  }

  /** A failed patch application ends the evaluation with its raw output; the script is
      never run. */
  lemma ApplyFailureReported(inst: Instance, patch: string, section: Option<EnvSection>, startup: Option<string>,
                             cwd: Option<string>, dataSource: string, delimiter: string, c: Collaborators,
                             out: string, rc: int)
    requires inst.instanceId.Some? && CreateEnv(section, startup, inst, dataSource, c).Ok?
    requires var env := CreateEnv(section, startup, inst, dataSource, c).value;
      c.run(env.history, ApplyCall(env, delimiter, patch, cwd, c)) == Completed(out, rc)
    requires rc != 0
    ensures Evaluate(inst, patch, section, startup, cwd, dataSource, delimiter, c).result
         == Ok(EvalResult(inst.instanceId.value, false, Some(out)))
    ensures |Evaluate(inst, patch, section, startup, cwd, dataSource, delimiter, c).calls| == 1
  {
  }

  /** `resolved` holds exactly when the patch applied and the script then returned 0; it
      depends on the return codes only. */
  lemma ResolvedIffTestsPass(inst: Instance, patch: string, section: Option<EnvSection>, startup: Option<string>,
                             cwd: Option<string>, dataSource: string, delimiter: string, c: Collaborators)
    requires inst.instanceId.Some? && CreateEnv(section, startup, inst, dataSource, c).Ok?
    ensures var env := CreateEnv(section, startup, inst, dataSource, c).value;
      var apply := ApplyCall(env, delimiter, patch, cwd, c);
      var r := Evaluate(inst, patch, section, startup, cwd, dataSource, delimiter, c).result;
      (r.Ok? && r.value.resolved)
      <==> (&& c.run(env.history, apply).Completed? && c.run(env.history, apply).returncode == 0
            && inst.evalScript.Some?
            && c.run(env.history + [apply], EvalCall(env, inst.evalScript.value, c)).Completed?
            && c.run(env.history + [apply], EvalCall(env, inst.evalScript.value, c)).returncode == 0)
  {
  }

  /** A returned result is about the instance, and carries a diagnostic exactly when it is
      not resolved. */
  lemma ErrorIffUnresolved(inst: Instance, patch: string, section: Option<EnvSection>, startup: Option<string>,
                           cwd: Option<string>, dataSource: string, delimiter: string, c: Collaborators)
    requires Evaluate(inst, patch, section, startup, cwd, dataSource, delimiter, c).result.Ok?
    ensures var v := Evaluate(inst, patch, section, startup, cwd, dataSource, delimiter, c).result.value;
      && inst.instanceId == Some(v.instanceId)
      && (v.evalError.None? <==> v.resolved)
  {
  }

  /** The diagnostic of a failing script is the note and at most the last 1000 characters
      of its output, whatever the output's length. */
  lemma DiagnosticBounded(inst: Instance, patch: string, section: Option<EnvSection>, startup: Option<string>,
                          cwd: Option<string>, dataSource: string, delimiter: string, c: Collaborators)
    requires var ev := Evaluate(inst, patch, section, startup, cwd, dataSource, delimiter, c);
      ev.result.Ok? && !ev.result.value.resolved && |ev.calls| == 2
    ensures var ev := Evaluate(inst, patch, section, startup, cwd, dataSource, delimiter, c);
      var env := CreateEnv(section, startup, inst, dataSource, c).value;
      var test := c.run(env.history + [ev.calls[0]], ev.calls[1]);
      && test.Completed? && test.returncode != 0
      && ev.result.value.evalError.Some?
      && |ev.result.value.evalError.value| <= |TruncationNote| + 1000
      && exists k :: 0 <= k <= |test.output| && ev.result.value.evalError.value == TruncationNote + test.output[k..]
  {
    var ev := Evaluate(inst, patch, section, startup, cwd, dataSource, delimiter, c);
    var env := CreateEnv(section, startup, inst, dataSource, c).value;
    var test := c.run(env.history + [ev.calls[0]], ev.calls[1]);
    var k := |test.output| - |Tail(test.output, 1000)|;
    assert ev.result.value.evalError.value == TruncationNote + test.output[k..];
  }

  /** A timeout while applying the patch or running the script is not caught. */
  lemma TimeoutsPropagate(inst: Instance, patch: string, section: Option<EnvSection>, startup: Option<string>,
                          cwd: Option<string>, dataSource: string, delimiter: string, c: Collaborators)
    requires var ev := Evaluate(inst, patch, section, startup, cwd, dataSource, delimiter, c);
      ev.calls != [] && c.run(CreateEnv(section, startup, inst, dataSource, c).value.history + ev.calls[..|ev.calls| - 1],
                              ev.calls[|ev.calls| - 1]).TimeoutExpired?
    ensures var ev := Evaluate(inst, patch, section, startup, cwd, dataSource, delimiter, c);
      ev.result == Err(Timeout(ev.calls[|ev.calls| - 1].argv, ev.calls[|ev.calls| - 1].timeout))
  {
    var ev := Evaluate(inst, patch, section, startup, cwd, dataSource, delimiter, c);
    CallsMade(inst, patch, section, startup, cwd, dataSource, delimiter, c);
    if |ev.calls| == 2 {
      assert ev.calls[..1] == [ev.calls[0]];
    } else {
      var h := CreateEnv(section, startup, inst, dataSource, c).value.history;
      assert ev.calls[..0] == [];
      assert h + ev.calls[..0] == h;
    }
  }
}
