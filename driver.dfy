/** The script's main run: read the configuration from the environment, upload every file each
    rule matches, keep the digests by basename and produce the manifest. */
module Driver {
  import opened Wrappers
  import opened Paths
  import opened Config
  import opened Upload

  const LogPath := "logs/cas_uploader.log"
  const DigestsFileName := "cas_digests.json"

  /** The recursive glob pattern for a rule's file-name pattern. */
  function GlobPattern(distDir: string, sourcePath: string): (r: string)
    ensures |r| == |distDir| + 4 + |sourcePath|
  {
    distDir + "/**/" + sourcePath
  }

  /** The pattern is the distribution directory, a recursive wildcard segment, then the rule's
      source path: every match lies somewhere below the distribution directory. */
  lemma GlobPatternParts(distDir: string, sourcePath: string)
    ensures var r := GlobPattern(distDir, sourcePath);
      r[..|distDir|] == distDir && r[|distDir|..|distDir| + 4] == "/**/" && r[|distDir| + 4..] == sourcePath
  {
  }

  /** One upload attempt: the matched file and how the client run for it ended. */
  datatype Attempt = Attempt(path: string, run: ClientRun)

  /** Rule `i`'s attempts: one per file its pattern matches, in match order; `run(i, j)` is how
      the client run for match `j` of rule `i` ended. */
  function RuleAttempts(distDir: string, rules: seq<ArtifactConfig>, glob: string -> seq<string>,
                        run: (nat, nat) -> ClientRun, i: nat): seq<Attempt>
    requires i < |rules|
  {
    var matches := glob(GlobPattern(distDir, rules[i].sourcePath));
    seq(|matches|, j requires 0 <= j < |matches| => Attempt(matches[j], run(i, j)))
  }

  /** The attempts of the first `n` rules, rule by rule. */
  function AttemptsUpTo(distDir: string, rules: seq<ArtifactConfig>, glob: string -> seq<string>,
                        run: (nat, nat) -> ClientRun, n: nat): seq<Attempt>
    requires n <= |rules|
  {
    if n == 0 then []
    else AttemptsUpTo(distDir, rules, glob, run, n - 1) + RuleAttempts(distDir, rules, glob, run, n - 1)
  }

  /** Attempt `a` is the run of match `j` of rule `i`, for some `i < n`. */
  predicate FromMatch(distDir: string, rules: seq<ArtifactConfig>, glob: string -> seq<string>,
                      run: (nat, nat) -> ClientRun, n: nat, a: Attempt)
    requires n <= |rules|
  {
    exists i: nat, j: nat :: i < n && j < |glob(GlobPattern(distDir, rules[i].sourcePath))|
      && a == Attempt(glob(GlobPattern(distDir, rules[i].sourcePath))[j], run(i, j))
  }

  /** Every attempt is the run of one match of one of the first `n` rules. */
  lemma {:induction false} AttemptsFromMatches(distDir: string, rules: seq<ArtifactConfig>,
                                               glob: string -> seq<string>, run: (nat, nat) -> ClientRun, n: nat)
    requires n <= |rules|
    ensures forall k :: 0 <= k < |AttemptsUpTo(distDir, rules, glob, run, n)| ==>
      FromMatch(distDir, rules, glob, run, n, AttemptsUpTo(distDir, rules, glob, run, n)[k])
  {
    if n > 0 {
      AttemptsFromMatches(distDir, rules, glob, run, n - 1);
      var done := AttemptsUpTo(distDir, rules, glob, run, n - 1);
      var current := RuleAttempts(distDir, rules, glob, run, n - 1);
      var r := AttemptsUpTo(distDir, rules, glob, run, n);
      assert r == done + current;
      forall k | 0 <= k < |r|
        ensures FromMatch(distDir, rules, glob, run, n, r[k])
      {
        if k >= |done| {
          var i: nat, j: nat := n - 1, k - |done|;
          assert r[k] == current[j];
          assert i < n && j < |glob(GlobPattern(distDir, rules[i].sourcePath))|;
          assert r[k] == Attempt(glob(GlobPattern(distDir, rules[i].sourcePath))[j], run(i, j));
        } else {
          assert r[k] == done[k];
          assert FromMatch(distDir, rules, glob, run, n - 1, done[k]);
        }
      }
    }
  }

  /** The attempt's upload returned a digest (`if digest:` in the script). */
  predicate Succeeded(a: Attempt) {
    var r := UploadResultOf(a.run);
    r.Success? && r.value.Some? && r.value.value != ""
  }

  /** The attempt's upload raised. */
  predicate Escaped(a: Attempt) {
    UploadResultOf(a.run).Failure?
  }

  function Digest(a: Attempt): string
    requires Succeeded(a)
  {
    UploadResultOf(a.run).value.value
  }

  predicate SucceededAs(a: Attempt, name: string) {
    Succeeded(a) && Basename(a.path) == name
  }

  /** Some attempt on a file called `name` produced a digest. */
  predicate SomeSuccess(attempts: seq<Attempt>, name: string) {
    exists k :: 0 <= k < |attempts| && SucceededAs(attempts[k], name)
  }

  /** Attempt `k` produced a digest and no later attempt on a file of the same basename did. */
  predicate LastSuccess(attempts: seq<Attempt>, k: int) {
    && 0 <= k < |attempts|
    && Succeeded(attempts[k])
    && forall l :: k < l < |attempts| ==> !SucceededAs(attempts[l], Basename(attempts[k].path))
  }

  /** The argument list the client gets for an attempt of `rule`: the rule with its source path
      replaced by the matched file, as the loop does before each upload. */
  function AttemptCommand(client: string, casInstance: string, casService: string, digestFile: string,
                          rule: ArtifactConfig, a: Attempt, tmpDir: string): (cmd: seq<string>)
    ensures |cmd| == 10 + 2 * |rule.excludeFilters|
    ensures rule.unzip ==> cmd[8..10] == ["-zip-path", a.path]
    ensures !rule.unzip ==> cmd[8..10] == ["-dir-path", tmpDir]
    ensures forall k :: 0 <= k < |rule.excludeFilters| ==>
      cmd[10 + 2 * k] == "-exclude-filters" && cmd[11 + 2 * k] == rule.excludeFilters[k]
  {
    CommandShape(client, casInstance, casService, digestFile, rule.(sourcePath := a.path), tmpDir);
    Command(InvocationFor(client, casInstance, casService, digestFile, rule.(sourcePath := a.path), tmpDir))
  }

  /** The digests after one more attempt: a success stores its digest under the file's
      basename, a failed upload changes nothing, and a timeout escapes with nothing kept. */
  function Record(prior: Result<map<string, string>, Raised>, a: Attempt): (r: Result<map<string, string>, Raised>)
    ensures r.Failure? <==> prior.Failure? || a.run.status.TimedOut?
    ensures r.Success? ==>
      r.value.Keys == prior.value.Keys + (if Succeeded(a) then {Basename(a.path)} else {})
    ensures r.Success? ==>
      forall name :: name in prior.value && !SucceededAs(a, name) ==> r.value[name] == prior.value[name]
    ensures r.Success? && Succeeded(a) ==> r.value[Basename(a.path)] == a.run.dumpedDigest
  {
    match prior
    case Failure(e) => Failure(e)
    case Success(digests) =>
      var result := UploadResultOf(a.run);
      if result.Failure? then Failure(result.error)
      else if result.value.Some? && result.value.value != "" then
        Success(digests[Basename(a.path) := result.value.value])
      else Success(digests)
  }

  /** The digests after the attempts `attempts`, processed in order. */
  function DigestsAfter(attempts: seq<Attempt>): (r: Result<map<string, string>, Raised>)
    ensures r.Failure? ==> r.error == TimeoutExpired(UploaderTimeoutSecs)
  {
    if attempts == [] then Success(map[])
    else Record(DigestsAfter(attempts[..|attempts| - 1]), attempts[|attempts| - 1])
  }

  lemma DigestsAfterSnoc(attempts: seq<Attempt>, a: Attempt)
    ensures DigestsAfter(attempts + [a]) == Record(DigestsAfter(attempts), a)
  {
    assert (attempts + [a])[..|attempts|] == attempts;
  }

  /** When the inner loop has processed all `j` matches of rule `i`, the prefix of the rule's
      attempts it has recorded is all of them, so the attempts of the first `i + 1` rules are
      recorded. */
  lemma NextRule(distDir: string, rules: seq<ArtifactConfig>, glob: string -> seq<string>,
                 run: (nat, nat) -> ClientRun, i: nat, j: nat)
    requires i < |rules| && j == |glob(GlobPattern(distDir, rules[i].sourcePath))|
    ensures AttemptsUpTo(distDir, rules, glob, run, i + 1) ==
      AttemptsUpTo(distDir, rules, glob, run, i) + RuleAttempts(distDir, rules, glob, run, i)[..j]
  {
    var current := RuleAttempts(distDir, rules, glob, run, i);
    assert current[..j] == current;
  }

  /** Extending a prefix of `current` by one attempt records that attempt. */
  lemma DigestsAfterPrefixStep(done: seq<Attempt>, current: seq<Attempt>, j: nat)
    requires j < |current|
    ensures DigestsAfter(done + current[..j + 1]) == Record(DigestsAfter(done + current[..j]), current[j])
  {
    assert done + current[..j + 1] == (done + current[..j]) + [current[j]];
    DigestsAfterSnoc(done + current[..j], current[j]);
  }

  /** Processing match `j` of rule `i` records its attempt. */
  lemma NextAttempt(distDir: string, rules: seq<ArtifactConfig>, glob: string -> seq<string>,
                    run: (nat, nat) -> ClientRun, i: nat, j: nat)
    requires i < |rules| && j < |glob(GlobPattern(distDir, rules[i].sourcePath))|
    ensures var done := AttemptsUpTo(distDir, rules, glob, run, i);
      var current := RuleAttempts(distDir, rules, glob, run, i);
      DigestsAfter(done + current[..j + 1]) ==
        Record(DigestsAfter(done + current[..j]),
               Attempt(glob(GlobPattern(distDir, rules[i].sourcePath))[j], run(i, j)))
  {
    var current := RuleAttempts(distDir, rules, glob, run, i);
    DigestsAfterPrefixStep(AttemptsUpTo(distDir, rules, glob, run, i), current, j);
  }

  /** The run is cut short exactly when some attempt raised. */
  lemma {:induction false} DigestsAfterFails(attempts: seq<Attempt>)
    ensures DigestsAfter(attempts).Failure? <==> exists k :: 0 <= k < |attempts| && Escaped(attempts[k])
  {
    if attempts != [] {
      var init := attempts[..|attempts| - 1];
      DigestsAfterFails(init);
      if exists k :: 0 <= k < |init| && Escaped(init[k]) {
        var k :| 0 <= k < |init| && Escaped(init[k]);
        assert attempts[k] == init[k];
      }
      if exists k :: 0 <= k < |attempts| && Escaped(attempts[k]) {
        var k :| 0 <= k < |attempts| && Escaped(attempts[k]);
        if k < |init| {
          assert init[k] == attempts[k];
        }
      }
    }
  }

  /** After a run that was not cut short, a basename has an entry exactly when some attempt on a
      file of that basename produced a digest: failed uploads neither add nor remove entries. */
  lemma {:induction false} DigestsAfterKeys(attempts: seq<Attempt>, name: string)
    requires DigestsAfter(attempts).Success?
    ensures name in DigestsAfter(attempts).value <==> SomeSuccess(attempts, name)
  {
    if attempts != [] {
      var n := |attempts| - 1;
      var init := attempts[..n];
      var a := attempts[n];
      assert DigestsAfter(attempts) == Record(DigestsAfter(init), a);
      DigestsAfterKeys(init, name);
      var before := DigestsAfter(init).value;
      assert name in DigestsAfter(attempts).value <==> name in before || SucceededAs(a, name);
      if SomeSuccess(init, name) {
        var k :| 0 <= k < |init| && SucceededAs(init[k], name);
        assert attempts[k] == init[k];
      }
      if SomeSuccess(attempts, name) && !SucceededAs(a, name) {
        var k :| 0 <= k < |attempts| && SucceededAs(attempts[k], name);
        assert init[k] == attempts[k];
      }
    }
  }

  /** After a run that was not cut short, the entry of a basename holds the digest of the last
      attempt on a file of that basename that produced one: later successes overwrite earlier
      ones. */
  lemma {:induction false} DigestsAfterLastWins(attempts: seq<Attempt>, k: int)
    requires DigestsAfter(attempts).Success?
    requires LastSuccess(attempts, k)
    ensures Basename(attempts[k].path) in DigestsAfter(attempts).value
    ensures DigestsAfter(attempts).value[Basename(attempts[k].path)] == Digest(attempts[k])
  {
    var n := |attempts| - 1;
    var init := attempts[..n];
    if k < n {
      assert init[k] == attempts[k];
      assert !SucceededAs(attempts[n], Basename(attempts[k].path));
      forall l | k < l < |init|
        ensures !SucceededAs(init[l], Basename(init[k].path))
      {
        assert init[l] == attempts[l];
      }
      DigestsAfterLastWins(init, k);
    }
  }

  /** Once a timeout has escaped, later attempts cannot undo it. */
  lemma {:induction false} DigestsAfterFailureSticks(s: seq<Attempt>, t: seq<Attempt>)
    requires DigestsAfter(s).Failure?
    ensures DigestsAfter(s + t).Failure?
    decreases |t|
  {
    if t == [] {
      assert s + t == s;
    } else {
      var init := t[..|t| - 1];
      assert (s + t)[..|s + t| - 1] == s + init;
      DigestsAfterFailureSticks(s, init);
    }
  }

  /** The attempts of the first `m` rules are a prefix of those of the first `n`. */
  lemma {:induction false} AttemptsPrefix(distDir: string, rules: seq<ArtifactConfig>, glob: string -> seq<string>,
                                          run: (nat, nat) -> ClientRun, m: nat, n: nat)
    requires m <= n <= |rules|
    ensures AttemptsUpTo(distDir, rules, glob, run, m) <= AttemptsUpTo(distDir, rules, glob, run, n)
    decreases n - m
  {
    if m < n {
      AttemptsPrefix(distDir, rules, glob, run, m, n - 1);
    }
  }

  /** An attempt that escapes while rule `i` is processed ends the whole run with it. */
  lemma EscapeEndsRun(distDir: string, rules: seq<ArtifactConfig>, glob: string -> seq<string>,
                      run: (nat, nat) -> ClientRun, i: nat, j: nat)
    requires i < |rules| && j < |RuleAttempts(distDir, rules, glob, run, i)|
    requires DigestsAfter(AttemptsUpTo(distDir, rules, glob, run, i)
                          + RuleAttempts(distDir, rules, glob, run, i)[..j + 1]).Failure?
    ensures DigestsAfter(AttemptsUpTo(distDir, rules, glob, run, |rules|)).Failure?
  {
    var done := AttemptsUpTo(distDir, rules, glob, run, i);
    var current := RuleAttempts(distDir, rules, glob, run, i);
    var all := AttemptsUpTo(distDir, rules, glob, run, |rules|);
    assert done + current[..j + 1] <= done + current;
    DigestsAfterPrefixFails(done + current[..j + 1], done + current);
    AttemptsPrefix(distDir, rules, glob, run, i + 1, |rules|);
    DigestsAfterPrefixFails(done + current, all);
  }

  lemma DigestsAfterPrefixFails(s: seq<Attempt>, t: seq<Attempt>)
    requires s <= t && DigestsAfter(s).Failure?
    ensures DigestsAfter(t).Failure?
  {
    assert t == s + t[|s|..];
    DigestsAfterFailureSticks(s, t[|s|..]);
  }

  /** The loop of the main run over `rules`: for each rule, glob its pattern under `distDir`; for
      each match, in order, take the upload's result and store a digest under the file's
      basename. A timeout escapes the loop and nothing is kept. */
  method CollectDigests(distDir: string, rules: seq<ArtifactConfig>, glob: string -> seq<string>,
                        run: (nat, nat) -> ClientRun)
    returns (r: Result<map<string, string>, Raised>)
    ensures r == DigestsAfter(AttemptsUpTo(distDir, rules, glob, run, |rules|))
  {
    var fileDigests: map<string, string> := map[];
    for i := 0 to |rules|
      invariant DigestsAfter(AttemptsUpTo(distDir, rules, glob, run, i)) == Success(fileDigests)
    {
      var artifact := rules[i];
      var sourcePath := artifact.sourcePath;
      var matches := glob(GlobPattern(distDir, sourcePath));
      ghost var done := AttemptsUpTo(distDir, rules, glob, run, i);
      ghost var current := RuleAttempts(distDir, rules, glob, run, i);
      assert done + current[..0] == done;
      for j := 0 to |matches|
        invariant DigestsAfter(done + current[..j]) == Success(fileDigests)
      {
        var f := matches[j];
        var name := Basename(f);
        var digest := UploadResultOf(run(i, j));
        NextAttempt(distDir, rules, glob, run, i, j);
        if digest.Failure? {
          EscapeEndsRun(distDir, rules, glob, run, i, j);
          return Failure(digest.error);
        }
        if digest.value.Some? && digest.value.value != "" {
          fileDigests := fileDigests[name := digest.value.value];
        }
      }
      NextRule(distDir, rules, glob, run, i, |matches|);
    }
    r := Success(fileDigests);
  }

  /** The manifest `_output_results` writes: the CAS instance and address and the digests. */
  datatype Manifest = Manifest(casInstance: string, casService: string, files: map<string, string>)

  /** The manifest, the path it is written to, and the log file the client's output is
      appended to. */
  datatype Output = Output(path: string, logFile: string, manifest: Manifest)

  /** The rules processed on a run: the catalog, then the selected experiment rules. */
  function RulesFor(experimentNames: seq<string>): (r: seq<ArtifactConfig>)
    ensures Catalog <= r
    ensures r[|Catalog|..] == KnownConfigs(experimentNames, ExperimentArtifactConfigs)
  {
    Catalog + KnownConfigs(experimentNames, ExperimentArtifactConfigs)
  }

  /** The attempts of a run over the rules for `experimentNames`. */
  function RunAttempts(distDir: string, experimentNames: seq<string>, glob: string -> seq<string>,
                       run: (nat, nat) -> ClientRun): seq<Attempt>
  {
    AttemptsUpTo(distDir, RulesFor(experimentNames), glob, run, |RulesFor(experimentNames)|)
  }

  /** A whole run: three required variables, read in order, then the uploads, then the
      manifest under the distribution directory. */
  function Run(env: Environment, experimentNames: seq<string>, glob: string -> seq<string>,
               run: (nat, nat) -> ClientRun): (r: Result<Output, Raised>)
    ensures r.Success? ==>
      && "RBE_instance" in env && r.value.manifest.casInstance == env["RBE_instance"] != ""
      && "RBE_service" in env && r.value.manifest.casService == env["RBE_service"] != ""
      && "DIST_DIR" in env && env["DIST_DIR"] != ""
      && r.value.path == Join(env["DIST_DIR"], DigestsFileName)
  {
    var casInstance :- GetEnvVar(env, "RBE_instance", None, true);
    var casService :- GetEnvVar(env, "RBE_service", None, true);
    var distDir :- GetEnvVar(env, "DIST_DIR", None, true);
    var digests :- DigestsAfter(RunAttempts(distDir.value, experimentNames, glob, run));
    Success(Output(Join(distDir.value, DigestsFileName), distDir.value + "/" + LogPath,
                   Manifest(casInstance.value, casService.value, digests)))
  }

  /** The main run of the script, with the environment, the command-line experiment names, the
      file system's glob and the client's outcomes given as inputs. */
  method RunUploader(env: Environment, experimentNames: seq<string>, glob: string -> seq<string>,
                     run: (nat, nat) -> ClientRun)
    returns (r: Result<Output, Raised>)
    ensures r == Run(env, experimentNames, glob, run)
  {
    var casInstance := GetEnvVar(env, "RBE_instance", None, true);
    if casInstance.Failure? {
      return Failure(casInstance.error);
    }
    var casService := GetEnvVar(env, "RBE_service", None, true);
    if casService.Failure? {
      return Failure(casService.error);
    }
    var distDir := GetEnvVar(env, "DIST_DIR", None, true);
    if distDir.Failure? {
      return Failure(distDir.error);
    }
    var additional, _ := ParseAdditionalArtifacts(experimentNames, ExperimentArtifactConfigs);
    var fileDigests := CollectDigests(distDir.value.value, Catalog + additional, glob, run);
    if fileDigests.Failure? {
      return Failure(fileDigests.error);
    }
    var manifest := Manifest(casInstance.value.value, casService.value.value, fileDigests.value);
    var logFile := distDir.value.value + "/" + LogPath;
    r := Success(Output(Join(distDir.value.value, DigestsFileName), logFile, manifest));
  }

  /** A required variable that is unset or empty stops the run with a ValueError naming the
      first such variable, before any upload; a ValueError means one of them was missing. */
  lemma RunConfigErrors(env: Environment, experimentNames: seq<string>, glob: string -> seq<string>,
                        run: (nat, nat) -> ClientRun)
    ensures !(("RBE_instance" in env && env["RBE_instance"] != "")) ==>
      Run(env, experimentNames, glob, run) == Failure(ValueError(EnvVarError("RBE_instance")))
    ensures "RBE_instance" in env && env["RBE_instance"] != "" &&
            !("RBE_service" in env && env["RBE_service"] != "") ==>
      Run(env, experimentNames, glob, run) == Failure(ValueError(EnvVarError("RBE_service")))
    ensures "RBE_instance" in env && env["RBE_instance"] != "" &&
            "RBE_service" in env && env["RBE_service"] != "" &&
            !("DIST_DIR" in env && env["DIST_DIR"] != "") ==>
      Run(env, experimentNames, glob, run) == Failure(ValueError(EnvVarError("DIST_DIR")))
    ensures Run(env, experimentNames, glob, run).Failure? &&
            Run(env, experimentNames, glob, run).error.ValueError? ==>
      !("RBE_instance" in env && env["RBE_instance"] != "" &&
        "RBE_service" in env && env["RBE_service"] != "" &&
        "DIST_DIR" in env && env["DIST_DIR"] != "")
  {
  }

  /** With the three variables set, the run produces a manifest unless an upload timed out; the
      manifest records the configured instance and address, goes to cas_digests.json in the
      distribution directory, and maps each basename that some upload succeeded for, and only
      those, to the digest of the last such upload. */
  lemma RunManifest(env: Environment, experimentNames: seq<string>, glob: string -> seq<string>,
                    run: (nat, nat) -> ClientRun)
    requires "RBE_instance" in env && env["RBE_instance"] != ""
    requires "RBE_service" in env && env["RBE_service"] != ""
    requires "DIST_DIR" in env && env["DIST_DIR"] != ""
    ensures var attempts := RunAttempts(env["DIST_DIR"], experimentNames, glob, run);
      Run(env, experimentNames, glob, run).Failure? <==> exists k :: 0 <= k < |attempts| && Escaped(attempts[k])
    ensures Run(env, experimentNames, glob, run).Failure? ==>
      Run(env, experimentNames, glob, run).error == TimeoutExpired(UploaderTimeoutSecs)
    ensures Run(env, experimentNames, glob, run).Success? ==>
      var out := Run(env, experimentNames, glob, run).value;
      && out.path == Join(env["DIST_DIR"], DigestsFileName)
      && Basename(out.path) == DigestsFileName
      && out.logFile == env["DIST_DIR"] + "/" + LogPath
      && out.manifest.casInstance == env["RBE_instance"]
      && out.manifest.casService == env["RBE_service"]
    ensures Run(env, experimentNames, glob, run).Success? ==>
      var attempts := RunAttempts(env["DIST_DIR"], experimentNames, glob, run);
      var files := Run(env, experimentNames, glob, run).value.manifest.files;
      && (forall name :: name in files <==> SomeSuccess(attempts, name))
      && (forall k :: LastSuccess(attempts, k) ==> files[Basename(attempts[k].path)] == Digest(attempts[k]))
  {
    var distDir := env["DIST_DIR"];
    var attempts := RunAttempts(distDir, experimentNames, glob, run);
    var digests := DigestsAfter(attempts);
    assert Run(env, experimentNames, glob, run) ==
      if digests.Failure? then Failure(digests.error)
      else Success(Output(Join(distDir, DigestsFileName), distDir + "/" + LogPath,
                          Manifest(env["RBE_instance"], env["RBE_service"], digests.value)));
    assert '/' !in DigestsFileName;
    DigestsAfterFails(attempts);
    if digests.Success? {
      forall name {
        DigestsAfterKeys(attempts, name);
      }
      forall k | LastSuccess(attempts, k) {
        DigestsAfterLastWins(attempts, k);
      }
    }
  }

  /** With the experiment table as shipped, a run processes exactly the catalog. */
  lemma ShippedRulesAreCatalog(experimentNames: seq<string>)
    ensures RulesFor(experimentNames) == Catalog
  {
    ShippedExperimentsIgnored(experimentNames);
  }

  /** One rule, one match, a clean exit with a dumped digest: the digests map the matched
      file's basename to that digest, verbatim. */
  lemma SingleUploadExample(distDir: string, rule: ArtifactConfig, dir: string, name: string, digest: string,
                            glob: string -> seq<string>, run: (nat, nat) -> ClientRun)
    requires '/' !in name && digest != ""
    requires glob(GlobPattern(distDir, rule.sourcePath)) == [dir + "/" + name]
    requires run(0, 0) == ClientRun(Exited(0), digest)
    ensures DigestsAfter(AttemptsUpTo(distDir, [rule], glob, run, 1)) == Success(map[name := digest])
  {
    var only := Attempt(dir + "/" + name, run(0, 0));
    assert AttemptsUpTo(distDir, [rule], glob, run, 1) == [] + [only];
    BasenameAfterSeparator(dir + "/", name);
    DigestsAfterSnoc([], only);
  }

  /** Two rules match files of the same basename in different directories. A later failed
      upload leaves the earlier digest in place; a later success replaces it; a later timeout
      ends the run without digests. */
  lemma SameBasenameExample(distDir: string, rules: seq<ArtifactConfig>, dir1: string, dir2: string,
                            name: string, glob: string -> seq<string>, run: (nat, nat) -> ClientRun)
    requires '/' !in name && |rules| == 2
    requires glob(GlobPattern(distDir, rules[0].sourcePath)) == [dir1 + "/" + name]
    requires glob(GlobPattern(distDir, rules[1].sourcePath)) == [dir2 + "/" + name]
    requires run(0, 0).status == Exited(0) && run(0, 0).dumpedDigest != ""
    ensures DigestsAfter(AttemptsUpTo(distDir, rules, glob, run, 2)) ==
      match run(1, 0).status
      case TimedOut => Failure(TimeoutExpired(UploaderTimeoutSecs))
      case Exited(code) =>
        if code == 0 && run(1, 0).dumpedDigest != "" then Success(map[name := run(1, 0).dumpedDigest])
        else Success(map[name := run(0, 0).dumpedDigest])
  {
    var first := Attempt(dir1 + "/" + name, run(0, 0));
    var second := Attempt(dir2 + "/" + name, run(1, 0));
    assert RuleAttempts(distDir, rules, glob, run, 0) == [first];
    assert RuleAttempts(distDir, rules, glob, run, 1) == [second];
    assert AttemptsUpTo(distDir, rules, glob, run, 1) == [first];
    assert AttemptsUpTo(distDir, rules, glob, run, 2) == [first] + [second];
    BasenameAfterSeparator(dir1 + "/", name);
    BasenameAfterSeparator(dir2 + "/", name);
    DigestsAfterSnoc([], first);
    assert [] + [first] == [first];
    var digests := map[name := run(0, 0).dumpedDigest];
    assert DigestsAfter([first]) == Success(digests);
    DigestsAfterSnoc([first], second);
    assert digests[name := run(1, 0).dumpedDigest] == map[name := run(1, 0).dumpedDigest];
  }
}
