# CAS content uploader — Dafny model

This project models the content uploader of the Trade Federation prebuilts: the script that
runs on the build server after a build, finds the build outputs named by its artifact catalog
under the distribution directory, uploads each matched file to content-addressed storage (CAS)
with the `casuploader` client, and writes the digests it got back to `cas_digests.json`.

The model keeps the script's deterministic logic and takes its I/O as inputs:

- `Config` — the `ArtifactConfig` rule, the shipped catalog (16 rules, in order) and the
  experiment table, the environment-variable lookup `_get_env_var`, and the selection of
  experiment rules named on the command line (`_parse_additional_artifacts`, a loop that appends
  to a list, modelled as a method with loop invariants).
- `Upload` — `_upload`: the client's argument list, built step by step as the script builds it,
  proved equal to a serialiser `Command`; a parser `ParseCommand` reads every field back from the
  list (a round trip), and the shape of the list is stated position by position. The client's
  outcome (exit status, dumped digest) becomes the upload's result: the digest, `None`, or a
  `TimeoutExpired` that escapes.
- `Driver` — `main`: the nested loop over rules and matches that fills the digest map keyed by
  basename, proved against `DigestsAfter`, a left-to-right fold over the attempts; lemmas say which
  basenames get an entry and which digest it holds; the whole run (`Run`, `RunUploader`), with the
  configuration errors, the timeout that aborts the run, and the manifest record.
- `Paths` — `os.path.basename` and `os.path.join` as the script uses them.
- `Wrappers` — `Option` and `Result`.

Inputs standing for I/O: the environment is a `map<string, string>`; the recursive glob is a
function `glob: string -> seq<string>` from pattern to matches (in the order it returns them);
the outcome of the client run for match `j` of rule `i` is `run(i, j)`; in `Upload.Upload` the
subprocess is a function `invoke` from argument list to outcome; the client path, the digest file
name and the staging directory are strings.

Behaviour of the script that the model follows:

- `_upload` catches only `CalledProcessError`. A `TimeoutExpired` escapes `_upload` and `main`:
  it ends the run and no `cas_digests.json` is written (`Driver.RunManifest`,
  `Driver.DigestsAfterFails`).
- The digest map is keyed by basename. Later successes for a basename overwrite earlier ones
  (`Driver.DigestsAfterLastWins`, `Driver.SameBasenameExample`).
- The script has no chunked uploads, fallback rules, basename de-duplication sets, client-version
  probing, `-file-path` argument or file-detail dumps.
- The manifest has the keys `cas_instance`, `cas_service` and `files` only; it has no
  `client_version`.

## Model

| member | source | states |
|---|---|---|
| `Paths.Basename` | filegroups/tradefed/content_uploader.py:243 | the basename has no '/' and is no longer than the path |
| `Paths.BasenameIsLastComponent` | filegroups/tradefed/content_uploader.py:243 | the basename ends the path and is either the whole path or preceded by a '/' |
| `Paths.BasenameAfterSeparator` | filegroups/tradefed/content_uploader.py:243 | a '/'-free name after a '/' (or alone) is its own basename |
| `Paths.Join` | filegroups/tradefed/content_uploader.py:257 | an absolute second part replaces the first; otherwise the first part is kept as a prefix; a '/'-free second part is the basename of the result |
| `Config.GetEnvVar` | filegroups/tradefed/content_uploader.py:89-93 | returns the variable's value, or the default when it is unset; with `check`, raises a ValueError naming the variable exactly when that value is unset or empty, and a checked success is non-empty |
| `Config.RequiredEnvVar` | filegroups/tradefed/content_uploader.py:219-221 | a required variable succeeds exactly when it is set and non-empty, and then yields its value |
| `Config.KnownConfigs` | filegroups/tradefed/content_uploader.py:98-102 | the selection: for each requested name in turn, the table's rule when the name is a key, nothing otherwise, so at most one rule per name |
| `Config.UnknownNames` | filegroups/tradefed/content_uploader.py:98-100 | the names that are warned about: each requested name that is not a key of the table, in turn, so at most one entry per name |
| `Config.ParseAdditionalArtifacts` | filegroups/tradefed/content_uploader.py:96-107 | the loop returns the table's rules for the known names and the list of ignored names, as `KnownConfigs` and `UnknownNames` define them |
| `Config.KnownConfigsAppend` | filegroups/tradefed/content_uploader.py:98-102 | selection distributes over concatenation of the name list, so argument order is kept |
| `Config.KnownConfigsPartition` | filegroups/tradefed/content_uploader.py:98-102 | every name is either selected or ignored; ignored names are exactly those not in the table; each selected rule is the table's rule for one of the names |
| `Config.AllKnownSelected` | filegroups/tradefed/content_uploader.py:98-107 | when every name is known, the result is the table's rule for each name, one per name, in order |
| `Config.ShippedExperimentsIgnored` | filegroups/tradefed/content_uploader.py:76-107 | with the experiment table as shipped (empty), every name is ignored and no rule is added |
| `Config.KnownConfigsInList` | filegroups/tradefed/content_uploader.py:98-99 | with a list for the table, as written, the selected names are among the arguments, no more of them than there are arguments, and each passed the list membership test |
| `Config.ListTableIgnoresEveryName` | filegroups/tradefed/content_uploader.py:76-102 | with a list for the experiment table, as written, no name ever passes the membership test, whatever the list holds |
| `Config.ListTableCounterexample` | filegroups/tradefed/content_uploader.py:76-102 | a list holding a rule ignores its name; a map keyed by that name selects the rule |
| `Upload.InvocationFor` | filegroups/tradefed/content_uploader.py:146-153 | the invocation keeps the client, instance, address, digest file, unzip flag and filters; its path is the source path when unzipping and the staging directory otherwise |
| `Upload.Command` | filegroups/tradefed/content_uploader.py:135-156 | the argument list has 10 + 2 * number of filters entries, starts with the client, and has the path flag of the unzip mode at position 8 followed by the invocation's path |
| `Upload.BuildUploadCommand` | filegroups/tradefed/content_uploader.py:135-156 | the argument list built step by step (prefix, one path flag, a pair per filter) is `Command` of the invocation for the artifact |
| `Upload.ExcludeFilterArgs` | filegroups/tradefed/content_uploader.py:155-156 | the arguments the filter loop appends: two per filter, each either the `-exclude-filters` flag or one of the rule's filters |
| `Upload.ExcludeFilterArgsAt` | filegroups/tradefed/content_uploader.py:155-156 | the filter arguments have two entries per filter, the flag at 2k and filter k at 2k + 1 |
| `Upload.CommandShape` | filegroups/tradefed/content_uploader.py:135-156 | the list starts with the client, `-cas-instance`, instance, `-cas-addr`, service, `-dump-digest`, digest file, `-use-adc`; then `-zip-path <source path>` when unzipping, else `-dir-path <staging dir>`; then `-exclude-filters <regex>` per filter in order; its length is 10 + 2 * number of filters |
| `Upload.SinglePathFlag` | filegroups/tradefed/content_uploader.py:146-153 | of the flag positions, only position 8 holds `-zip-path` or `-dir-path`: the two never both appear as flags |
| `Upload.ExcludeFiltersRoundTrip` | filegroups/tradefed/content_uploader.py:155-156 | parsing the filter arguments gives the filters back |
| `Upload.CommandRoundTrip` | filegroups/tradefed/content_uploader.py:135-156 | parsing the argument list gives back every field of the invocation |
| `Upload.CommandInjective` | filegroups/tradefed/content_uploader.py:135-156 | two invocations with the same argument list are equal |
| `Upload.UploadResultOf` | filegroups/tradefed/content_uploader.py:158-188 | a timeout raises TimeoutExpired(600); a non-zero exit or an empty digest file gives `None`; a clean exit gives the dumped digest verbatim, which is non-empty |
| `Upload.Upload` | filegroups/tradefed/content_uploader.py:110-188 | the client is run on `Command` of the artifact's invocation and the result is the classification of that run |
| `Driver.RulesFor` | filegroups/tradefed/content_uploader.py:233-240 | the rules of a run are the whole catalog, in order, followed by the selected experiment rules |
| `Driver.GlobPattern` | filegroups/tradefed/content_uploader.py:242 | the pattern is as long as the distribution directory, four characters and the source path together |
| `Driver.GlobPatternParts` | filegroups/tradefed/content_uploader.py:242 | the pattern is the distribution directory, then `/**/`, then the rule's source path |
| `Driver.AttemptsFromMatches` | filegroups/tradefed/content_uploader.py:240-245 | `AttemptsUpTo` lists attempts made by the loop: each is the client run on match `j` of rule `i`, for one of the rules processed so far |
| `Driver.AttemptsPrefix` | filegroups/tradefed/content_uploader.py:240-242 | `AttemptsUpTo` orders the attempts rule by rule: for `m <= n`, the attempts of the first `m` rules are a prefix of those of the first `n`, so an earlier rule's attempts come first |
| `Driver.AttemptCommand` | filegroups/tradefed/content_uploader.py:244-245 | an attempt of an unzip rule passes `-zip-path` and the matched file; of any other rule, `-dir-path` and the staging directory; then `-exclude-filters` and each filter of the rule, in order |
| `Driver.Record` | filegroups/tradefed/content_uploader.py:243-251 | one attempt: the map is lost exactly when the run had already failed or this upload timed out; otherwise a success adds or overwrites the entry for the file's basename with the dumped digest, and every other entry is kept |
| `Driver.DigestsAfter` | filegroups/tradefed/content_uploader.py:239-251 | the only exception that can end the loop is the client's TimeoutExpired |
| `Driver.DigestsAfterFails` | filegroups/tradefed/content_uploader.py:240-251 | the loop ends with an exception exactly when some attempt timed out |
| `Driver.DigestsAfterKeys` | filegroups/tradefed/content_uploader.py:243-251 | after the loop, a basename has an entry exactly when some upload of a file with that basename returned a digest: failures neither add nor remove entries |
| `Driver.DigestsAfterLastWins` | filegroups/tradefed/content_uploader.py:240-247 | the entry for a basename holds the digest of the last successful upload of a file with that basename, in rule order then match order |
| `Driver.DigestsAfterFailureSticks` | filegroups/tradefed/content_uploader.py:240-245 | once a timeout has escaped, later attempts cannot produce digests |
| `Driver.CollectDigests` | filegroups/tradefed/content_uploader.py:239-251 | the nested loop over rules and matches gives `DigestsAfter` of all attempts, rule by rule in order, each rule's matches in glob order |
| `Driver.Run` | filegroups/tradefed/content_uploader.py:207-258 | a successful run had RBE_instance, RBE_service and DIST_DIR set and non-empty, its manifest records the instance and address from the environment, and it is written to `cas_digests.json` joined to DIST_DIR |
| `Driver.RunUploader` | filegroups/tradefed/content_uploader.py:207-258 | the main run reads the three variables in order, selects the rules, runs the loop and builds the output as `Run` defines |
| `Driver.RunConfigErrors` | filegroups/tradefed/content_uploader.py:219-221 | an unset or empty RBE_instance, RBE_service or DIST_DIR ends the run with a ValueError naming the first such variable, before any upload; a ValueError means one was missing |
| `Driver.RunManifest` | filegroups/tradefed/content_uploader.py:191-258 | with the variables set, the run fails exactly when an upload timed out; otherwise the manifest goes to `<DIST_DIR>/cas_digests.json`, the log to `<DIST_DIR>/logs/cas_uploader.log`, and it records the instance, the address, and per basename the digest of its last successful upload |
| `Driver.ShippedRulesAreCatalog` | filegroups/tradefed/content_uploader.py:233-240 | as shipped, a run processes exactly the catalog, whatever experiment names are given |
| `Driver.SingleUploadExample` | filegroups/tradefed/content_uploader.py:240-247 | one rule with one match and a clean upload gives a single entry, basename to digest verbatim |
| `Driver.SameBasenameExample` | filegroups/tradefed/content_uploader.py:240-251 | when two rules match files of the same basename, a later failure keeps the earlier digest, a later success replaces it, and a later timeout ends the run |

## Findings

| source | as written | input that shows it | evidently intended | confidence | as-written member | corrected member |
|---|---|---|---|---|---|---|
| filegroups/tradefed/content_uploader.py:76-102 | the experiment table is a list, so `config not in EXPERIMENT_ARTIFACT_CONFIGS` compares a name with rules and is always true: every name is ignored even after a rule is added to the list | table `[ArtifactConfig('x.zip', True)]`, `--experiment_artifacts x.zip`: the name is warned about and nothing is uploaded | a dict from name to rule, as the indexing `EXPERIMENT_ARTIFACT_CONFIGS[config]` expects | medium, not executed | `Config.ListTableCounterexample` | `Config.AllKnownSelected` |

The rest of the model uses the table as a map (`Config.ExperimentArtifactConfigs`); shipped
empty, it ignores every name, as the script does (`Config.ShippedExperimentsIgnored`).

## Left out

- `_get_client`: locating the client binary on disk (a file check, then a recursive glob) is
  environment lookup; the client path is an input. The ValueError it raises inside `_upload`
  when no binary exists, which would end the run at the first match, is not modelled.
- Running the client: `subprocess.run`, appending its output to the log file and the 600-second
  timeout mechanism are external; only how the run ended (exit code or timeout) and what it wrote
  to the digest file are inputs.
- Staging: `tempfile.mkdtemp`, `NamedTemporaryFile` and `os.link` are file-system effects; the
  staging directory and digest-file name are opaque input strings. Exceptions these can raise
  (for example from `os.link`) are not modelled.
- Glob expansion: the recursive wildcard matcher is a library; it is the input function `glob`,
  applied to the modelled pattern `<DIST_DIR>/**/<source path>`.
- `Driver.CollectDigests`: the client's outcome for each attempt is the input `run(i, j)`. Each
  upload writes to a fresh temporary digest file and, for a rule that does not unzip, a fresh
  staging directory; those names come from the file system. The argument list of an attempt is
  `Driver.AttemptCommand`.
- The overwrite of `artifact.source_path` in place: the model keeps the matched path as its own
  value. The overwrite only changes behaviour if the same `ArtifactConfig` object occurs twice in
  `ARTIFACTS + additional_artifacts`. As written this cannot happen, because no experiment rule is
  ever selected.
- Exceptions from opening and writing files are not modelled. These include the log file that
  `logging.basicConfig` opens under `<DIST_DIR>/logs`, the `open(log_file, 'a')` in `_upload` and
  the manifest write in `_output_results`. `Driver.RunManifest`'s "fails exactly when an upload
  timed out" holds when these succeed.
- `Config.GetEnvVar`: the default is modelled as an optional string; Python accepts any object.
- JSON serialisation (`sort_keys`, indentation) and writing the file, `argparse`, `logging`,
  `time` and `print`: I/O and formatting. The manifest is the record of its three keys.
