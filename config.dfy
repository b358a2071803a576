/** The artifact catalog of the content uploader, its environment-variable lookup and the
    selection of experiment artifacts named on the command line. */
module Config {
  import opened Wrappers

  /** One upload rule: a file-name pattern under the distribution directory, whether the
      matched zip is uploaded as an unzipped directory tree, and regular expressions of files
      the client leaves out. */
  datatype ArtifactConfig = ArtifactConfig(sourcePath: string, unzip: bool, excludeFilters: seq<string>)

  /** The exceptions that can escape the script's functions. */
  datatype Raised =
    | ValueError(message: string)
    | TimeoutExpired(seconds: nat)

  /** The artifacts uploaded on every run, in the order they are processed. */
  const Catalog: seq<ArtifactConfig> := [
    // test_suite targets
    ArtifactConfig("android-cts.zip", true, []),
    ArtifactConfig("android-gts.zip", true, []),
    ArtifactConfig("android-mts.zip", true, []),
    ArtifactConfig("android-pts.zip", true, []),
    ArtifactConfig("android-vts.zip", true, []),
    ArtifactConfig("art-host-tests.zip", true, []),
    ArtifactConfig("bazel-test-suite.zip", true, []),
    ArtifactConfig("host-unit-tests.zip", true, []),
    ArtifactConfig("general-tests.zip", true, []),
    ArtifactConfig("general-tests_configs.zip", true, []),
    ArtifactConfig("general-tests_host-shared-libs.zip", true, []),
    ArtifactConfig("google-tradefed.zip", true, []),
    ArtifactConfig("robolectric-tests.zip", true, []),
    // device target artifacts
    ArtifactConfig("androidTest.zip", true, []),
    ArtifactConfig("device-tests.zip", true, []),
    ArtifactConfig("*-img-*zip", false, [])
  ]

  /** The experiment artifacts selectable by name. The script ships this table empty (as an
      empty list that it nevertheless indexes by name); here it is a map from name to rule. */
  const ExperimentArtifactConfigs: map<string, ArtifactConfig> := map[]

  /** The process environment, variable name to value. */
  type Environment = map<string, string>

  function EnvVarError(key: string): string {
    "Error: the environment variable " + key + " is not set"
  }

  /** `os.environ.get(key, default)`. */
  function Lookup(env: Environment, key: string, default: Option<string>): Option<string> {
    if key in env then Some(env[key]) else default
  }

  /** Python truthiness of a string-or-None value. */
  predicate Truthy(v: Option<string>) {
    v.Some? && v.value != ""
  }

  /** Reads `key` from the environment, falling back to `default` when it is unset; with
      `check`, a missing or empty value raises a ValueError naming the variable. */
  function GetEnvVar(env: Environment, key: string, default: Option<string>, check: bool)
    : (r: Result<Option<string>, Raised>)
    ensures r.Success? ==> r.value == (if key in env then Some(env[key]) else default)
    ensures r.Failure? <==>
      check && (if key in env then env[key] == "" else default == None || default == Some(""))
    ensures r.Failure? ==> r.error == ValueError(EnvVarError(key))
    ensures check && r.Success? ==> r.value.Some? && r.value.value != ""
  {
    var value := Lookup(env, key, default);
    if check && !Truthy(value) then Failure(ValueError(EnvVarError(key))) else Success(value)
  }

  /** A required variable (no default, checked) yields its value exactly when it is set and
      non-empty. */
  lemma RequiredEnvVar(env: Environment, key: string)
    ensures GetEnvVar(env, key, None, true).Success? <==> key in env && env[key] != ""
    ensures key in env && env[key] != "" ==> GetEnvVar(env, key, None, true) == Success(Some(env[key]))
  {
  }

  /** The rules of the experiment names found in `table`, in the order the names are given. */
  function KnownConfigs(names: seq<string>, table: map<string, ArtifactConfig>): (r: seq<ArtifactConfig>)
    ensures |r| <= |names|
  {
    if names == [] then []
    else
      var last := names[|names| - 1];
      KnownConfigs(names[..|names| - 1], table) + (if last in table then [table[last]] else [])
  }

  /** The experiment names not found in `table`, each of which is warned about and ignored. */
  function UnknownNames(names: seq<string>, table: map<string, ArtifactConfig>): (r: seq<string>)
    ensures |r| <= |names|
  {
    if names == [] then []
    else
      var last := names[|names| - 1];
      UnknownNames(names[..|names| - 1], table) + (if last in table then [] else [last])
  }

  /** Collects the rules of the requested experiment names that the table knows, in argument
      order, and the names it does not know; unknown names never raise. */
  method ParseAdditionalArtifacts(names: seq<string>, table: map<string, ArtifactConfig>)
    returns (additional: seq<ArtifactConfig>, ignored: seq<string>)
    ensures additional == KnownConfigs(names, table)
    ensures ignored == UnknownNames(names, table)
  {
    additional, ignored := [], [];
    for i := 0 to |names|
      invariant additional == KnownConfigs(names[..i], table)
      invariant ignored == UnknownNames(names[..i], table)
    {
      var config := names[i];
      assert names[..i + 1][..i] == names[..i];
      if config !in table {
        ignored := ignored + [config];
      } else {
        additional := additional + [table[config]];
      }
    }
    assert names[..|names|] == names;
  }

  /** Selection distributes over concatenation of the name list: it keeps argument order. */
  lemma {:induction false} KnownConfigsAppend(a: seq<string>, b: seq<string>, table: map<string, ArtifactConfig>)
    ensures KnownConfigs(a + b, table) == KnownConfigs(a, table) + KnownConfigs(b, table)
    ensures UnknownNames(a + b, table) == UnknownNames(a, table) + UnknownNames(b, table)
    decreases |b|
  {
    if b == [] {
      assert a + b == a;
    } else {
      var init, last := b[..|b| - 1], b[|b| - 1];
      assert (a + b)[..|a + b| - 1] == a + init;
      assert (a + b)[|a + b| - 1] == last;
      KnownConfigsAppend(a, init, table);
    }
  }

  /** Every name is either selected or ignored, and every selected rule is the table's rule for
      one of the names. */
  lemma {:induction false} KnownConfigsPartition(names: seq<string>, table: map<string, ArtifactConfig>)
    ensures |KnownConfigs(names, table)| + |UnknownNames(names, table)| == |names|
    ensures forall c :: c in KnownConfigs(names, table) ==>
      exists n :: n in names && n in table && table[n] == c
    ensures forall n :: n in UnknownNames(names, table) <==> n in names && n !in table
  {
    if names != [] {
      var init := names[..|names| - 1];
      KnownConfigsPartition(init, table);
      assert names == init + [names[|names| - 1]];
      forall c | c in KnownConfigs(names, table)
        ensures exists n :: n in names && n in table && table[n] == c
      {
        if c in KnownConfigs(init, table) {
          var n :| n in init && n in table && table[n] == c;
          assert n in names;
        }
      }
    }
  }

  /** When every name is known, the selection is the table's rules for them, one per name, in
      the given order. */
  lemma {:induction false} AllKnownSelected(names: seq<string>, table: map<string, ArtifactConfig>)
    requires forall n :: n in names ==> n in table
    ensures KnownConfigs(names, table) == seq(|names|, i requires 0 <= i < |names| => table[names[i]])
    ensures UnknownNames(names, table) == []
  {
    if names != [] {
      var init := names[..|names| - 1];
      assert forall n :: n in init ==> n in names;
      AllKnownSelected(init, table);
    }
  }

  /** With the table as shipped, every experiment name is ignored and no rule is added. */
  lemma {:induction false} ShippedExperimentsIgnored(names: seq<string>)
    ensures KnownConfigs(names, ExperimentArtifactConfigs) == []
    ensures UnknownNames(names, ExperimentArtifactConfigs) == names
  {
    if names != [] {
      ShippedExperimentsIgnored(names[..|names| - 1]);
      assert names == names[..|names| - 1] + [names[|names| - 1]];
    }
  }

  /** Python's `name in table` for a list of rules: a string never equals an ArtifactConfig, so
      no element matches, whatever the list holds. */
  predicate InRuleList(name: string, table: seq<ArtifactConfig>) {
    exists i :: 0 <= i < |table| && StrEqualsRule(name, table[i])
  }

  /** `==` between a str and an ArtifactConfig: the dataclass only compares equal to instances
      of its own class. */
  predicate StrEqualsRule(name: string, rule: ArtifactConfig) {
    false
  }

  /** The selection as written, with the shipped list-typed table: the names that pass the
      membership test, in argument order. */
  function KnownConfigsInList(names: seq<string>, table: seq<ArtifactConfig>): (r: seq<string>)
    ensures |r| <= |names|
    ensures forall n :: n in r ==> n in names && InRuleList(n, table)
  {
    if names == [] then []
    else
      var last := names[|names| - 1];
      KnownConfigsInList(names[..|names| - 1], table) + (if InRuleList(last, table) then [last] else [])
  }

  /** With a list for a table, adding a rule to it still selects nothing: every experiment name
      is ignored. This follows directly from `StrEqualsRule` being false, that is, from a str
      never comparing equal to an ArtifactConfig. */
  lemma {:induction false} ListTableIgnoresEveryName(names: seq<string>, table: seq<ArtifactConfig>)
    ensures KnownConfigsInList(names, table) == []
  {
    if names != [] {
      ListTableIgnoresEveryName(names[..|names| - 1], table);
    }
  }

  /** A list holding a rule ignores the rule's name; a map keyed by that name selects it. */
  lemma ListTableCounterexample(rule: ArtifactConfig)
    ensures KnownConfigsInList(["experiment"], [rule]) == []
    ensures KnownConfigs(["experiment"], map["experiment" := rule]) == [rule]
  {
    ListTableIgnoresEveryName(["experiment"], [rule]);
    assert ["experiment"][..0] == [];
  }
}
