// Model of soupboss/config.py: the default settings, the recursive copy
// and merge of nested dictionaries, the typed environment overrides, and
// the ConfigManager's get/set/reset/validate.

module Config {
  import opened Wrappers
  import opened Text
  import opened Json

  type Section = map<string, Value>

  /** _deep_copy_dict on one value: dictionaries are copied recursively,
      lists shallowly, everything else is shared. With values instead of
      references every copy is equal to its original; what the copy buys
      in Python (later writes do not reach the original) holds here by
      construction. */
  function DeepCopy(v: Value): (r: Value)
    ensures r == v
    decreases v
  {
    match v
    case Object(m) =>
      var c := map k | k in m :: DeepCopy(m[k]);
      assert forall k :: k in m ==> c[k] == m[k];
      assert c == m;
      Object(c)
    case List(xs) => List(xs)
    case _ => v
  }

  /** _merge_configs: keys only in base are kept; an override key replaces
      the base value unless both are dictionaries, which are merged. */
  function Merge(base: Section, over: Section): (r: Section)
    ensures r.Keys == base.Keys + over.Keys
    ensures forall k :: k in base && k !in over ==> r[k] == base[k]
    decreases Object(over)
  {
    map k | k in base.Keys + over.Keys ::
      if k !in over then DeepCopy(base[k])
      else if k in base && base[k].Object? && over[k].Object? then
        assert Object(over[k].fields) == over[k];
        Object(Merge(base[k].fields, over[k].fields))
      else over[k]
  }

  /** The value found by following a dotted path of keys, or None when a
      key is missing or an intermediate value is not a dictionary. */
  function Lookup(m: Section, path: seq<string>): Option<Value>
    requires |path| > 0
    decreases |path|
  {
    if path[0] !in m then None
    else if |path| == 1 then Some(m[path[0]])
    else if m[path[0]].Object? then Lookup(m[path[0]].fields, path[1..])
    else None
  }

  /** The override holds nothing at path and nothing that would replace a
      dictionary on the way there. */
  predicate Untouched(over: Section, path: seq<string>)
    requires |path| > 0
    decreases |path|
  {
    path[0] !in over
    || (|path| > 1 && over[path[0]].Object? && Untouched(over[path[0]].fields, path[1..]))
  }

  lemma {:induction false} UntouchedLookup(over: Section, path: seq<string>)
    requires |path| > 0 && Untouched(over, path)
    ensures Lookup(over, path) == None
    decreases |path|
  {
    if path[0] in over {
      UntouchedLookup(over[path[0]].fields, path[1..]);
    }
  }

  /** A non-dictionary value of the override wins at its path. */
  lemma {:induction false} MergeOverrideWins(base: Section, over: Section, path: seq<string>)
    requires |path| > 0
    requires Lookup(over, path).Some? && !Lookup(over, path).value.Object?
    ensures Lookup(Merge(base, over), path) == Lookup(over, path)
    decreases |path|
  {
    var k := path[0];
    var r := Merge(base, over);
    if |path| > 1 && k in base && base[k].Object? {
      assert r[k] == Object(Merge(base[k].fields, over[k].fields));
      MergeOverrideWins(base[k].fields, over[k].fields, path[1..]);
    }
  }

  /** Where the override is silent, the base value shows through. */
  lemma {:induction false} MergeKeepsBase(base: Section, over: Section, path: seq<string>)
    requires |path| > 0 && Untouched(over, path)
    ensures Lookup(Merge(base, over), path) == Lookup(base, path)
    decreases |path|
  {
    var k := path[0];
    var r := Merge(base, over);
    if k in over {
      if k in base && base[k].Object? {
        assert r[k] == Object(Merge(base[k].fields, over[k].fields));
        MergeKeepsBase(base[k].fields, over[k].fields, path[1..]);
      } else {
        assert r[k] == over[k];
        UntouchedLookup(over[k].fields, path[1..]);
      }
    } else if k in base {
      assert r[k] == base[k];
    }
  }

  /** Merging with an empty override returns the base unchanged. */
  lemma MergeEmpty(base: Section)
    ensures Merge(base, map[]) == base
  {
    var r := Merge(base, map[]);
    assert forall k :: k in base ==> r[k] == base[k];
  }

  /** Merging a dictionary with itself returns it unchanged. */
  lemma {:induction false} MergeSelf(base: Section)
    ensures Merge(base, base) == base
    decreases Object(base)
  {
    var r := Merge(base, base);
    forall k | k in base
      ensures r[k] == base[k]
    {
      if base[k].Object? {
        assert Object(base[k].fields) == base[k];
        MergeSelf(base[k].fields);
      }
    }
  }

  /** DEFAULT_CONFIG, section by section. */
  const DatabaseDefaults: Section := map[
    "path" := Str("data/soupboss.db"),
    "backup_retention_days" := Int(30),
    "auto_vacuum" := Bool(true)]
  const OllamaDefaults: Section := map[
    "host" := Str("localhost"),
    "port" := Int(11434),
    "model" := Str("nomic-embed-text"),
    "timeout" := Int(30),
    "max_retries" := Int(3)]
  const ExportDefaults: Section := map[
    "default_format" := Str("csv"),
    "output_directory" := Str("."),
    "include_timestamps" := Bool(true),
    "max_results_per_export" := Int(1000)]
  const ApiDefaults: Section := map[
    "greenhouse_timeout" := Int(30),
    "lever_timeout" := Int(30),
    "max_jobs_per_fetch" := Int(500),
    "rate_limit_delay" := Float(1.0)]
  const MatchingDefaults: Section := map[
    "similarity_threshold" := Float(0.0),
    "max_matches_per_resume" := Int(50),
    "score_precision" := Int(3)]
  const CliDefaults: Section := map[
    "default_table_limit" := Int(50),
    "progress_bar" := Bool(true),
    "color_output" := Bool(true)]

  const Default: Section := map[
    "database" := Object(DatabaseDefaults),
    "ollama" := Object(OllamaDefaults),
    "export" := Object(ExportDefaults),
    "api" := Object(ApiDefaults),
    "matching" := Object(MatchingDefaults),
    "cli" := Object(CliDefaults)]

  /** One row of the environment table: variable name, section, key. */
  datatype EnvMapping = EnvMapping(variable: string, section: string, key: string)

  /** The rows of one section of the table, as (variable, key) pairs. */
  datatype EnvBlock = EnvBlock(section: string, rows: seq<(string, string)>)

  /** The env_mappings table, grouped by section in its own order. */
  const EnvTable: seq<EnvBlock> := [
    EnvBlock("database", [
      ("SOUPBOSS_DB_PATH", "path"),
      ("SOUPBOSS_DB_BACKUP_RETENTION", "backup_retention_days"),
      ("SOUPBOSS_DB_AUTO_VACUUM", "auto_vacuum")]),
    EnvBlock("ollama", [
      ("SOUPBOSS_OLLAMA_HOST", "host"),
      ("SOUPBOSS_OLLAMA_PORT", "port"),
      ("SOUPBOSS_OLLAMA_MODEL", "model"),
      ("SOUPBOSS_OLLAMA_TIMEOUT", "timeout"),
      ("SOUPBOSS_OLLAMA_MAX_RETRIES", "max_retries")]),
    EnvBlock("export", [
      ("SOUPBOSS_EXPORT_FORMAT", "default_format"),
      ("SOUPBOSS_EXPORT_DIR", "output_directory"),
      ("SOUPBOSS_EXPORT_TIMESTAMPS", "include_timestamps"),
      ("SOUPBOSS_EXPORT_MAX_RESULTS", "max_results_per_export")]),
    EnvBlock("api", [
      ("SOUPBOSS_GREENHOUSE_TIMEOUT", "greenhouse_timeout"),
      ("SOUPBOSS_LEVER_TIMEOUT", "lever_timeout"),
      ("SOUPBOSS_MAX_JOBS_FETCH", "max_jobs_per_fetch"),
      ("SOUPBOSS_RATE_LIMIT", "rate_limit_delay")]),
    EnvBlock("matching", [
      ("SOUPBOSS_SIMILARITY_THRESHOLD", "similarity_threshold"),
      ("SOUPBOSS_MAX_MATCHES", "max_matches_per_resume"),
      ("SOUPBOSS_SCORE_PRECISION", "score_precision")]),
    EnvBlock("cli", [
      ("SOUPBOSS_TABLE_LIMIT", "default_table_limit"),
      ("SOUPBOSS_PROGRESS_BAR", "progress_bar"),
      ("SOUPBOSS_COLOR_OUTPUT", "color_output")])
  ]

  function Rows(b: EnvBlock): (r: seq<EnvMapping>)
    ensures |r| == |b.rows|
    ensures forall i :: 0 <= i < |r| ==> r[i] == EnvMapping(b.rows[i].0, b.section, b.rows[i].1)
  {
    seq(|b.rows|, i requires 0 <= i < |b.rows| => EnvMapping(b.rows[i].0, b.section, b.rows[i].1))
  }

  /** The table as one list of rows, in iteration order. */
  function Flatten(t: seq<EnvBlock>): (r: seq<EnvMapping>)
    ensures forall m :: m in r ==> exists b :: b in t && m.section == b.section
  {
    if t == [] then [] else Rows(t[0]) + Flatten(t[1..])
  }

  const EnvMappings: seq<EnvMapping> := Flatten(EnvTable)

  /** The setting an environment variable overrides. */
  function Target(m: EnvMapping): seq<string> {
    [m.section, m.key]
  }

  /** No two rows of the table override the same setting. */
  predicate DistinctTargets(ms: seq<EnvMapping>) {
    forall i, j :: 0 <= i < j < |ms| ==> Target(ms[i]) != Target(ms[j])
  }

  predicate DistinctKeys(b: EnvBlock) {
    forall i, j :: 0 <= i < j < |b.rows| ==> b.rows[i].1 != b.rows[j].1
  }

  predicate DistinctSections(t: seq<EnvBlock>) {
    forall i, j :: 0 <= i < j < |t| ==> t[i].section != t[j].section
  }

  /** Sections that differ and keys that differ within each section give
      rows that override different settings. */
  lemma {:induction false} FlattenDistinct(t: seq<EnvBlock>)
    requires DistinctSections(t)
    requires forall i :: 0 <= i < |t| ==> DistinctKeys(t[i])
    ensures DistinctTargets(Flatten(t))
  {
    if t != [] {
      var head, tail := Rows(t[0]), Flatten(t[1..]);
      FlattenDistinct(t[1..]);
      assert DistinctKeys(t[0]);
      forall m | m in tail
        ensures m.section != t[0].section
      {
        var b :| b in t[1..] && m.section == b.section;
        var j :| 0 <= j < |t[1..]| && t[1..][j] == b;
        assert t[j + 1] == b;
      }
      forall i, j | 0 <= i < j < |head + tail|
        ensures Target((head + tail)[i]) != Target((head + tail)[j])
      {
        if j >= |head| && i < |head| {
          assert (head + tail)[j] in tail;
        } else if j >= |head| {
          assert (head + tail)[i] == tail[i - |head|];
        }
      }
    }
  }

  /** The environment table names every setting once. */
  lemma EnvMappingsDistinct()
    ensures DistinctTargets(EnvMappings)
  {
    FlattenDistinct(EnvTable);
  }

  /** Words that make a boolean setting true. */
  predicate TrueWord(s: string) {
    s in {"true", "1", "yes", "on"}
  }

  /** The conversion of a raw environment string by the type of the
      current value: bool first, then int, then float, else the raw
      string. None stands for the ValueError that keeps the old value. */
  function Coerce(current: Value, raw: string, parseFloat: string -> Option<real>): Option<Value> {
    match current
    case Bool(_) => Some(Bool(TrueWord(Lower(raw))))
    case Int(_) => (match ParseInt(raw) case Some(n) => Some(Int(n)) case None => None)
    case Float(_) => (match parseFloat(raw) case Some(f) => Some(Float(f)) case None => None)
    case _ => Some(Str(raw))
  }

  /** A conversion keeps the kind of the setting: a boolean stays a
      boolean, an int an int, a float a float, anything else becomes a
      string; booleans and strings never fail. */
  lemma CoerceKeepsKind(current: Value, raw: string, parseFloat: string -> Option<real>)
    ensures var r := Coerce(current, raw, parseFloat);
      && (current.Bool? ==> r.Some? && r.value.Bool?)
      && (current.Int? && r.Some? ==> r.value.Int?)
      && (current.Float? && r.Some? ==> r.value.Float?)
      && (!current.Bool? && !current.Int? && !current.Float? ==> r == Some(Str(raw)))
  {
  }

  /** A boolean setting ignores letter case and treats anything other than
      the four words as false. */
  lemma CoerceBool(b: bool, parseFloat: string -> Option<real>)
    ensures Coerce(Bool(b), "YES", parseFloat) == Some(Bool(true))
    ensures Coerce(Bool(b), "0", parseFloat) == Some(Bool(false))
  {
    var l := Lower("YES");
    assert l[0] == 'y' && l[1] == 'e' && l[2] == 's';
    assert l == "yes";
    assert Lower("0") == "0";
  }

  /** An int setting given the decimal text of n becomes n. */
  lemma CoerceIntRoundTrip(current: int, n: int, parseFloat: string -> Option<real>)
    ensures Coerce(Int(current), IntToString(n), parseFloat) == Some(Int(n))
  {
    IntToStringRoundTrip(n);
  }

  /** An int setting given a blank value fails to convert and so keeps
      its value. */
  lemma CoerceIntRejectsBlank(current: int, parseFloat: string -> Option<real>)
    ensures Coerce(Int(current), "", parseFloat) == None
    ensures Coerce(Int(current), " ", parseFloat) == None
  {
    assert Strip("") == "";
    assert Strip(" ") == "";
  }

  /** The value a setting has after the environment row m was applied to
      it; current is its value before. */
  function Overridden(current: Value, env: map<string, string>, parseFloat: string -> Option<real>, m: EnvMapping): Value {
    if m.variable in env then Coerce(current, env[m.variable], parseFloat).GetOr(current) else current
  }

  /** Some row whose variable is set names a setting the configuration
      lacks: `config[section][key]` raises. */
  predicate MissingTarget(config: Section, env: map<string, string>, ms: seq<EnvMapping>) {
    exists i :: 0 <= i < |ms| && ms[i].variable in env && Lookup(config, Target(ms[i])).None?
  }

  /** The path goes through the setting of row m. */
  predicate Through(m: EnvMapping, path: seq<string>)
    requires |path| > 0
  {
    m.section == path[0] && (|path| == 1 || m.key == path[1])
  }

  /** The path goes through a setting that some row overrides. */
  predicate Targeted(ms: seq<EnvMapping>, path: seq<string>)
    requires |path| > 0
  {
    exists i :: 0 <= i < |ms| && Through(ms[i], path)
  }

  /** What _load_config and get raise: a missing section under an
      environment override, a section that is not a dictionary, a
      configuration file that cannot be read or whose top level is not an
      object, and a database path Path() refuses. */
  datatype ConfigError =
    | MissingSetting(variable: string)
    | NotADict(section: string)
    | FileUnreadable
    | FileNotAnObject(content: Value)
    | NotAPath(path: Value)

  /** config[section][key] := v on a configuration that holds the section. */
  function Put(config: Section, section: string, key: string, v: Value): (r: Section)
    requires section in config && config[section].Object?
  {
    config[section := Object(config[section].fields[key := v])]
  }

  /** Storing a setting changes that setting and no path elsewhere. */
  lemma PutLookup(config: Section, m: EnvMapping, v: Value)
    requires m.section in config && config[m.section].Object?
    ensures Lookup(Put(config, m.section, m.key, v), Target(m)) == Some(v)
    ensures forall path :: |path| > 0 && !Through(m, path) ==>
      Lookup(Put(config, m.section, m.key, v), path) == Lookup(config, path)
  {
    var r := Put(config, m.section, m.key, v);
    forall path | |path| > 0 && !Through(m, path)
      ensures Lookup(r, path) == Lookup(config, path)
    {
      if |path| > 1 && path[0] == m.section {
        assert Lookup(r, path) == Lookup(r[m.section].fields, path[1..]);
      }
    }
  }

  /** One pass of the loop of _apply_env_overrides. */
  function Step(cur: Section, env: map<string, string>, parseFloat: string -> Option<real>, m: EnvMapping)
    : (r: Result<Section, ConfigError>)
    ensures r.Err? <==> m.variable in env && Lookup(cur, Target(m)).None?
    ensures r.Ok? && Lookup(cur, Target(m)).Some? ==>
      Lookup(r.value, Target(m)) == Some(Overridden(Lookup(cur, Target(m)).value, env, parseFloat, m))
    ensures r.Ok? ==> forall path :: |path| > 0 && !Through(m, path) ==> Lookup(r.value, path) == Lookup(cur, path)
  {
    if m.variable !in env then Ok(cur)
    else match Lookup(cur, Target(m))
      case None => Err(MissingSetting(m.variable))
      case Some(v) =>
        var w := Overridden(v, env, parseFloat, m);
        PutLookup(cur, m, w);
        Ok(Put(cur, m.section, m.key, w))
  }

  /** What the loop of _apply_env_overrides has done after i rows: no
      set variable so far named a missing setting, the first i settings
      hold their overridden values, the others their original values,
      and every path away from the first i settings is unchanged. */
  ghost predicate Applied(config: Section, cur: Section, env: map<string, string>,
                          parseFloat: string -> Option<real>, ms: seq<EnvMapping>, i: int)
    requires 0 <= i <= |ms|
  {
    && !MissingTarget(config, env, ms[..i])
    && (forall t :: 0 <= t < i && Lookup(config, Target(ms[t])).Some? ==>
          Lookup(cur, Target(ms[t])) == Some(Overridden(Lookup(config, Target(ms[t])).value, env, parseFloat, ms[t])))
    && (forall t :: i <= t < |ms| ==> Lookup(cur, Target(ms[t])) == Lookup(config, Target(ms[t])))
    && (forall path :: |path| > 0 && !Targeted(ms[..i], path) ==> Lookup(cur, path) == Lookup(config, path))
  }

  /** _apply_env_overrides over a table of rows: each set variable
      converts and replaces its setting; an unparsable value keeps the
      setting; a setting missing from the configuration raises. */
  method ApplyMappings(config: Section, env: map<string, string>, parseFloat: string -> Option<real>,
                       ms: seq<EnvMapping>) returns (r: Result<Section, ConfigError>)
    requires DistinctTargets(ms)
    ensures r.Err? <==> MissingTarget(config, env, ms)
    ensures r.Ok? ==> forall i :: 0 <= i < |ms| && Lookup(config, Target(ms[i])).Some? ==>
      Lookup(r.value, Target(ms[i])) == Some(Overridden(Lookup(config, Target(ms[i])).value, env, parseFloat, ms[i]))
    ensures r.Ok? ==> forall path :: |path| > 0 && !Targeted(ms, path) ==> Lookup(r.value, path) == Lookup(config, path)
  {
    var cur := config;
    assert ms[..0] == [];
    for i := 0 to |ms|
      invariant Applied(config, cur, env, parseFloat, ms, i)
    {
      var step := Step(cur, env, parseFloat, ms[i]);
      if step.Err? {
        assert ms[i].variable in env && Lookup(config, Target(ms[i])).None?;
        return Err(step.error);
      }
      StepPreserves(config, cur, step.value, env, parseFloat, ms, i);
      cur := step.value;
    }
    assert ms[..|ms|] == ms;
    r := Ok(cur);
  }

  /** The loop invariant of ApplyMappings survives one step. */
  lemma StepPreserves(config: Section, cur: Section, next: Section, env: map<string, string>,
                      parseFloat: string -> Option<real>, ms: seq<EnvMapping>, i: int)
    requires DistinctTargets(ms) && 0 <= i < |ms|
    requires Step(cur, env, parseFloat, ms[i]) == Ok(next)
    requires Applied(config, cur, env, parseFloat, ms, i)
    ensures Applied(config, next, env, parseFloat, ms, i + 1)
  {
    StepKeepsPresent(config, cur, next, env, parseFloat, ms, i);
    StepSettings(config, cur, next, env, parseFloat, ms, i);
    StepFrame(config, cur, next, env, parseFloat, ms, i);
  }

  lemma StepKeepsPresent(config: Section, cur: Section, next: Section, env: map<string, string>,
                         parseFloat: string -> Option<real>, ms: seq<EnvMapping>, i: int)
    requires 0 <= i < |ms|
    requires Step(cur, env, parseFloat, ms[i]) == Ok(next)
    requires Applied(config, cur, env, parseFloat, ms, i)
    ensures !MissingTarget(config, env, ms[..i + 1])
  {
    assert Lookup(cur, Target(ms[i])) == Lookup(config, Target(ms[i]));
    PresentSnoc(config, env, ms, i);
  }

  /** No set variable of the first i + 1 rows lacks its setting when none
      of the first i does and row i has its setting or is not set. */
  lemma PresentSnoc(config: Section, env: map<string, string>, ms: seq<EnvMapping>, i: int)
    requires 0 <= i < |ms|
    requires !MissingTarget(config, env, ms[..i])
    requires ms[i].variable in env ==> Lookup(config, Target(ms[i])).Some?
    ensures !MissingTarget(config, env, ms[..i + 1])
  {
    var pre := ms[..i + 1];
    forall t | 0 <= t < i + 1 && pre[t].variable in env
      ensures Lookup(config, Target(pre[t])).Some?
    {
      if t < i {
        assert ms[..i][t] == pre[t];
      }
    }
  }

  lemma StepSettings(config: Section, cur: Section, next: Section, env: map<string, string>,
                     parseFloat: string -> Option<real>, ms: seq<EnvMapping>, i: int)
    requires DistinctTargets(ms) && 0 <= i < |ms|
    requires Step(cur, env, parseFloat, ms[i]) == Ok(next)
    requires Applied(config, cur, env, parseFloat, ms, i)
    ensures forall t :: 0 <= t < i + 1 && Lookup(config, Target(ms[t])).Some? ==>
      Lookup(next, Target(ms[t])) == Some(Overridden(Lookup(config, Target(ms[t])).value, env, parseFloat, ms[t]))
    ensures forall t :: i + 1 <= t < |ms| ==> Lookup(next, Target(ms[t])) == Lookup(config, Target(ms[t]))
  {
    forall t | 0 <= t < |ms| && t != i
      ensures Lookup(next, Target(ms[t])) == Lookup(cur, Target(ms[t]))
    {
      assert Target(ms[t]) != Target(ms[i]);
      assert !Through(ms[i], Target(ms[t]));
    }
  }

  lemma StepFrame(config: Section, cur: Section, next: Section, env: map<string, string>,
                  parseFloat: string -> Option<real>, ms: seq<EnvMapping>, i: int)
    requires 0 <= i < |ms|
    requires Step(cur, env, parseFloat, ms[i]) == Ok(next)
    requires Applied(config, cur, env, parseFloat, ms, i)
    ensures forall path :: |path| > 0 && !Targeted(ms[..i + 1], path) ==> Lookup(next, path) == Lookup(config, path)
  {
    assert forall t :: 0 <= t < i ==> ms[..i][t] == ms[..i + 1][t];
    forall path | |path| > 0 && !Targeted(ms[..i + 1], path)
      ensures Lookup(next, path) == Lookup(config, path)
    {
      assert ms[..i + 1][i] == ms[i];
      assert !Through(ms[i], path);
      assert !Targeted(ms[..i], path);
    }
  }

  /** What applying the environment table to config yields: an error
      exactly when a listed section is missing; otherwise every listed
      setting that exists is overridden and every setting off the table
      keeps its value. */
  ghost predicate EnvApplied(config: Section, env: map<string, string>, parseFloat: string -> Option<real>,
                       r: Result<Section, ConfigError>)
  {
    && (r.Err? <==> MissingTarget(config, env, EnvMappings))
    && (r.Ok? ==> forall i :: 0 <= i < |EnvMappings| && Lookup(config, Target(EnvMappings[i])).Some? ==>
          Lookup(r.value, Target(EnvMappings[i]))
            == Some(Overridden(Lookup(config, Target(EnvMappings[i])).value, env, parseFloat, EnvMappings[i])))
    && (r.Ok? ==> forall path :: |path| > 0 && !Targeted(EnvMappings, path) ==> Lookup(r.value, path) == Lookup(config, path))
  }

  /** _apply_env_overrides with the fixed table of environment variables. */
  method ApplyEnvOverrides(config: Section, env: map<string, string>, parseFloat: string -> Option<real>)
    returns (r: Result<Section, ConfigError>)
    ensures EnvApplied(config, env, parseFloat, r)
  {
    EnvMappingsDistinct();
    r := ApplyMappings(config, env, parseFloat, EnvMappings);
  }

  /** The configuration before the environment is applied: the defaults,
      with the JSON file merged over them when there is one. */
  function Layered(file: Option<Section>): Section {
    if file.Some? then Merge(Default, file.value) else Default
  }

  /** What reading the JSON configuration file gives. */
  datatype ConfigFile =
    | NoFile                  // the file does not exist
    | Undecodable             // json.load raised JSONDecodeError, or open raised FileNotFoundError
    | Unreadable              // open or read raised any other error
    | Parsed(content: Value)  // what json.load returned

  /** The sections the file contributes: those of a top-level object, and
      none when the file is absent or undecodable (a warning is printed). */
  function FileSections(file: ConfigFile): (r: Option<Section>)
    requires !file.Unreadable? && (file.Parsed? ==> file.content.Object?)
    ensures r.Some? <==> file.Parsed?
  {
    if file.Parsed? then Some(file.content.fields) else None
  }

  /** _load_config: the defaults, then the JSON file when there is one,
      then the environment. A read error other than the two caught ones
      propagates, and a top-level value that is not an object makes
      _merge_configs call items() on it, which raises. */
  method LoadConfig(file: ConfigFile, env: map<string, string>, parseFloat: string -> Option<real>)
    returns (r: Result<Section, ConfigError>)
    ensures file.Unreadable? ==> r == Err(FileUnreadable)
    ensures file.Parsed? && !file.content.Object? ==> r == Err(FileNotAnObject(file.content))
    ensures !file.Unreadable? && (file.Parsed? ==> file.content.Object?)
            ==> EnvApplied(Layered(FileSections(file)), env, parseFloat, r)
  {
    match file {
      case Unreadable =>
        return Err(FileUnreadable);
      case Parsed(content) =>
        if !content.Object? {
          return Err(FileNotAnObject(content));
        }
      case _ =>
    }
    var config := LayerFile(file);
    r := ApplyEnvOverrides(config, env, parseFloat);
    EnvAppliedTo(config, Layered(FileSections(file)), env, parseFloat, r);
  }

  /** A copy of the defaults with the file's sections merged over it. */
  method LayerFile(file: ConfigFile) returns (config: Section)
    requires !file.Unreadable? && (file.Parsed? ==> file.content.Object?)
    ensures config == Layered(FileSections(file))
  {
    config := DeepCopy(Object(Default)).fields;
    if file.Parsed? {
      config := Merge(config, file.content.fields);
    }
  }

  /** The outcome of applying the environment depends only on the
      configuration's contents, not on how it was built. */
  lemma EnvAppliedTo(config: Section, layered: Section, env: map<string, string>,
                     parseFloat: string -> Option<real>, r: Result<Section, ConfigError>)
    requires config == layered && EnvApplied(config, env, parseFloat, r)
    ensures EnvApplied(layered, env, parseFloat, r)
  {
  }

  /** Precedence: a file value that is not a dictionary beats the default
      at its path, and where the file is silent the default shows
      through; the environment then overrides the listed settings. */
  lemma FileOverDefault(file: Section, path: seq<string>)
    requires |path| > 0
    ensures Lookup(file, path).Some? && !Lookup(file, path).value.Object?
            ==> Lookup(Merge(Default, file), path) == Lookup(file, path)
    ensures Untouched(file, path) ==> Lookup(Merge(Default, file), path) == Lookup(Default, path)
  {
    if Lookup(file, path).Some? && !Lookup(file, path).value.Object? {
      MergeOverrideWins(Default, file, path);
    }
    if Untouched(file, path) {
      MergeKeepsBase(Default, file, path);
    }
  }

  /** A problem validate_config reports. */
  datatype ConfigIssue =
    | DatabaseDirInaccessible
    | InvalidPort(port: Option<Value>)
    | InvalidTimeout(timeout: Option<Value>)
    | InvalidFormat(format: Option<Value>)
    | InvalidThreshold(threshold: Option<Value>)

  /** isinstance(v, int), where a Python bool is an int too. */
  function AsInt(v: Option<Value>): Option<int> {
    match v
    case Some(Int(i)) => Some(i)
    case Some(Bool(b)) => Some(if b then 1 else 0)
    case _ => None
  }

  /** isinstance(v, (int, float)). */
  function AsNumber(v: Option<Value>): Option<real> {
    match v
    case Some(Float(f)) => Some(f)
    case _ => (match AsInt(v) case Some(i) => Some(i as real) case None => None)
  }

  predicate PortOk(v: Option<Value>) {
    AsInt(v).Some? && 1 <= AsInt(v).value <= 65535
  }

  predicate TimeoutOk(v: Option<Value>) {
    AsNumber(v).Some? && AsNumber(v).value > 0.0
  }

  predicate FormatOk(v: Option<Value>) {
    v in {Some(Str("csv")), Some(Str("json")), Some(Str("html"))}
  }

  predicate ThresholdOk(v: Option<Value>) {
    AsNumber(v).Some? && 0.0 <= AsNumber(v).value <= 1.0
  }

  /** One check of validate_config: its issue when the check fails. */
  function Flag(ok: bool, issue: ConfigIssue): (r: seq<ConfigIssue>)
    ensures r == [] <==> ok
    ensures r == [] || r == [issue]
  {
    if ok then [] else [issue]
  }

  /** The issue list of validate_config, in the order of its checks; the
      directory check only runs when the database path is truthy. */
  function Issues(dbPath: Option<Value>, dirAccessible: bool, port: Option<Value>, timeout: Option<Value>,
                  format: Option<Value>, threshold: Option<Value>): (r: seq<ConfigIssue>)
    ensures DatabaseDirInaccessible in r <==> dbPath.Some? && Truthy(dbPath.value) && !dirAccessible
    ensures r == [] <==> (dbPath.None? || !Truthy(dbPath.value) || dirAccessible)
                         && PortOk(port) && TimeoutOk(timeout) && FormatOk(format) && ThresholdOk(threshold)
  {
    Flag(dbPath.None? || !Truthy(dbPath.value) || dirAccessible, DatabaseDirInaccessible)
    + Flag(PortOk(port), InvalidPort(port))
    + Flag(TimeoutOk(timeout), InvalidTimeout(timeout))
    + Flag(FormatOk(format), InvalidFormat(format))
    + Flag(ThresholdOk(threshold), InvalidThreshold(threshold))
  }

  /** Each value check reports its own issue exactly when it fails. */
  lemma IssuesNameFailures(dbPath: Option<Value>, dirAccessible: bool, port: Option<Value>, timeout: Option<Value>,
                           format: Option<Value>, threshold: Option<Value>)
    ensures var r := Issues(dbPath, dirAccessible, port, timeout, format, threshold);
      && (InvalidPort(port) in r <==> !PortOk(port))
      && (InvalidTimeout(timeout) in r <==> !TimeoutOk(timeout))
      && (InvalidFormat(format) in r <==> !FormatOk(format))
      && (InvalidThreshold(threshold) in r <==> !ThresholdOk(threshold))
  {
    var dirOk, portOk := dbPath.None? || !Truthy(dbPath.value) || dirAccessible, PortOk(port);
    var timeoutOk, formatOk, thresholdOk := TimeoutOk(timeout), FormatOk(format), ThresholdOk(threshold);
    var r := Issues(dbPath, dirAccessible, port, timeout, format, threshold);
    FlagsReport(r, dirOk, portOk, timeoutOk, formatOk, thresholdOk, port, timeout, format, threshold);
  }

  /** The report of five checks names each value issue exactly when its
      check fails, whatever the outcome of the other checks. */
  lemma FlagsReport(r: seq<ConfigIssue>, dirOk: bool, portOk: bool, timeoutOk: bool, formatOk: bool, thresholdOk: bool,
                    port: Option<Value>, timeout: Option<Value>, format: Option<Value>, threshold: Option<Value>)
    requires r == Flag(dirOk, DatabaseDirInaccessible) + Flag(portOk, InvalidPort(port))
                  + Flag(timeoutOk, InvalidTimeout(timeout)) + Flag(formatOk, InvalidFormat(format))
                  + Flag(thresholdOk, InvalidThreshold(threshold))
    ensures InvalidPort(port) in r <==> !portOk
    ensures InvalidTimeout(timeout) in r <==> !timeoutOk
    ensures InvalidFormat(format) in r <==> !formatOk
    ensures InvalidThreshold(threshold) in r <==> !thresholdOk
  {
    var d, p := Flag(dirOk, DatabaseDirInaccessible), Flag(portOk, InvalidPort(port));
    var t, f := Flag(timeoutOk, InvalidTimeout(timeout)), Flag(formatOk, InvalidFormat(format));
    var h := Flag(thresholdOk, InvalidThreshold(threshold));
    FlagMembers(r, d, p, t, f, h);
  }

  /** Membership in a report made of five single checks. */
  lemma FlagMembers(r: seq<ConfigIssue>, d: seq<ConfigIssue>, p: seq<ConfigIssue>, t: seq<ConfigIssue>,
                    f: seq<ConfigIssue>, h: seq<ConfigIssue>)
    requires r == d + p + t + f + h
    ensures forall x :: x in r <==> x in d || x in p || x in t || x in f || x in h
  {
  }


  /** get(section, ...) does not raise: the section is missing or is a
      dictionary. */
  predicate SectionIsDict(config: Section, section: string) {
    section !in config || config[section].Object?
  }

  /** Path(db_path) does not raise: the path is missing, falsy (the check
      is skipped) or a string. */
  predicate PathAccepted(v: Option<Value>) {
    v.None? || !Truthy(v.value) || v.value.Str?
  }

  class ConfigManager {
    var config: Section

    /** __init__ with the configuration _load_config produced. */
    constructor (loaded: Section)
      ensures config == loaded
    {
      config := loaded;
    }

    /** get(section): the section, or {} when it is missing. */
    function GetSection(section: string): (r: Value)
      reads this
      ensures section in config ==> r == config[section]
      ensures section !in config ==> r == Object(map[])
    {
      if section in config then config[section] else Object(map[])
    }

    /** get(section, key): the value, None when the key is missing, and an
        error when the section holds something other than a dictionary. */
    function GetKey(section: string, key: string): (r: Result<Option<Value>, ConfigError>)
      reads this
      ensures r.Ok? <==> section !in config || config[section].Object?
      ensures r.Ok? ==> r.value == (if section in config then Lookup(config, [section, key]) else None)
    {
      match GetSection(section)
      case Object(fields) => Ok(Get(fields, key))
      case _ => Err(NotADict(section))
    }

    /** set: creates a missing section, then stores the value and reports
        whether saving the file succeeded (saved). */
    method Set(section: string, key: string, value: Value, saved: bool) returns (r: Result<bool, ConfigError>)
      modifies this
      ensures r.Ok? <==> section !in old(config) || old(config)[section].Object?
      ensures r.Ok? ==> r.value == saved && GetKey(section, key) == Ok(Some(value))
      ensures r.Ok? ==> forall path :: |path| > 0 && path[0] != section ==> Lookup(config, path) == Lookup(old(config), path)
      ensures r.Ok? ==> forall k :: k != key ==> GetKey(section, k) == old(GetKey(section, k))
      ensures r.Err? ==> config == old(config)
    {
      if section !in config {
        config := config[section := Object(map[])];
      }
      if !config[section].Object? {
        return Err(NotADict(section));
      }
      config := Put(config, section, key, value);
      r := Ok(saved);
    }

    /** reset_to_defaults. */
    method ResetToDefaults(saved: bool) returns (ok: bool)
      modifies this
      ensures config == Default && ok == saved
    {
      config := DeepCopy(Object(Default)).fields;
      ok := saved;
    }

    /** validate_config; dirAccessible says whether the database directory
        exists or could be created. A section that holds something other
        than a dictionary makes get raise, and so does a truthy database
        path that is not a string, when Path() is built from it. */
    function ValidateConfig(dirAccessible: bool): (r: Result<seq<ConfigIssue>, ConfigError>)
      reads this
      ensures r.Ok? <==> SectionIsDict(config, "database") && SectionIsDict(config, "ollama")
                         && SectionIsDict(config, "export") && SectionIsDict(config, "matching")
                         && PathAccepted(Lookup(config, ["database", "path"]))
      ensures SectionIsDict(config, "database") && !PathAccepted(Lookup(config, ["database", "path"]))
              ==> r == Err(NotAPath(Lookup(config, ["database", "path"]).value))
      ensures r.Ok? ==> (r.value == [] <==>
        (Lookup(config, ["database", "path"]).None? || !Truthy(Lookup(config, ["database", "path"]).value) || dirAccessible)
        && PortOk(Lookup(config, ["ollama", "port"])) && TimeoutOk(Lookup(config, ["ollama", "timeout"]))
        && FormatOk(Lookup(config, ["export", "default_format"]))
        && ThresholdOk(Lookup(config, ["matching", "similarity_threshold"])))
    {
      var path := GetKey("database", "path");
      var port := GetKey("ollama", "port");
      var timeout := GetKey("ollama", "timeout");
      var format := GetKey("export", "default_format");
      var threshold := GetKey("matching", "similarity_threshold");
      if path.Err? then Err(path.error)
      else if !PathAccepted(path.value) then Err(NotAPath(path.value.value))
      else if port.Err? then Err(port.error)
      else if format.Err? then Err(format.error)
      else if threshold.Err? then Err(threshold.error)
      else Ok(Issues(path.value, dirAccessible, port.value, timeout.value, format.value, threshold.value))
    }
  }

  lemma DefaultPort()
    ensures Lookup(Default, ["ollama", "port"]) == Some(Int(11434))
    ensures Lookup(Default, ["ollama", "timeout"]) == Some(Int(30))
  {
    var p: seq<string> := ["ollama", "port"];
    assert p[1..] == ["port"];
    var t: seq<string> := ["ollama", "timeout"];
    assert t[1..] == ["timeout"];
    assert Default["ollama"] == Object(OllamaDefaults);
  }

  lemma DefaultFormat()
    ensures Lookup(Default, ["export", "default_format"]) == Some(Str("csv"))
  {
    var p: seq<string> := ["export", "default_format"];
    assert p[1..] == ["default_format"];
    assert Default["export"] == Object(ExportDefaults);
  }

  lemma DefaultThreshold()
    ensures Lookup(Default, ["matching", "similarity_threshold"]) == Some(Float(0.0))
  {
    var p: seq<string> := ["matching", "similarity_threshold"];
    assert p[1..] == ["similarity_threshold"];
    assert Default["matching"] == Object(MatchingDefaults);
  }

  /** Every check validate_config makes passes on the defaults. */
  lemma DefaultChecks()
    ensures SectionIsDict(Default, "database") && SectionIsDict(Default, "ollama")
    ensures SectionIsDict(Default, "export") && SectionIsDict(Default, "matching")
    ensures PortOk(Lookup(Default, ["ollama", "port"])) && TimeoutOk(Lookup(Default, ["ollama", "timeout"]))
    ensures FormatOk(Lookup(Default, ["export", "default_format"]))
    ensures ThresholdOk(Lookup(Default, ["matching", "similarity_threshold"]))
  {
    DefaultPort();
    DefaultFormat();
    DefaultThreshold();
    assert PortOk(Some(Int(11434))) && TimeoutOk(Some(Int(30)));
  }

  /** The defaults pass validation whenever the database directory is
      accessible. */
  lemma DefaultsAreValid(c: ConfigManager)
    requires c.config == Default
    ensures c.ValidateConfig(true) == Ok([])
  {
    DefaultChecks();
    var r := c.ValidateConfig(true);
    assert r.Ok?;
  }
}
