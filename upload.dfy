/** One upload: the argument list handed to the CAS uploader client, and how the client's
    exit status and dumped digest become the upload's result. */
module Upload {
  import opened Wrappers
  import opened Config

  /** Seconds the client may run before it is killed and TimeoutExpired is raised. */
  const UploaderTimeoutSecs: nat := 600

  /** What one client invocation is asked to do: the client binary, the CAS instance and
      address, the file the digest is dumped to, whether `path` is a zip to expand or a
      directory, and the exclude filters. */
  datatype Invocation = Invocation(
    client: string,
    casInstance: string,
    casService: string,
    digestFile: string,
    unzip: bool,
    path: string,
    excludeFilters: seq<string>)

  /** The invocation for `artifact`: a zip is passed as is, any other file through the staging
      directory `tmpDir` it was linked into. */
  function InvocationFor(client: string, casInstance: string, casService: string, digestFile: string,
                         artifact: ArtifactConfig, tmpDir: string): (inv: Invocation)
    ensures inv.client == client && inv.casInstance == casInstance && inv.casService == casService
    ensures inv.digestFile == digestFile && inv.unzip == artifact.unzip
    ensures artifact.unzip ==> inv.path == artifact.sourcePath
    ensures !artifact.unzip ==> inv.path == tmpDir
    ensures inv.excludeFilters == artifact.excludeFilters
  {
    Invocation(client, casInstance, casService, digestFile, artifact.unzip,
               if artifact.unzip then artifact.sourcePath else tmpDir, artifact.excludeFilters)
  }

  function PathFlag(unzip: bool): string {
    if unzip then "-zip-path" else "-dir-path"
  }

  function ExcludeFilterArgs(filters: seq<string>): (args: seq<string>)
    ensures |args| == 2 * |filters|
    ensures forall a :: a in args ==> a == "-exclude-filters" || a in filters
  {
    if filters == [] then [] else ["-exclude-filters", filters[0]] + ExcludeFilterArgs(filters[1..])
  }

  /** The argument list of an invocation. */
  function Command(inv: Invocation): (cmd: seq<string>)
    ensures |cmd| == 10 + 2 * |inv.excludeFilters|
    ensures cmd[0] == inv.client && cmd[8] == PathFlag(inv.unzip) && cmd[9] == inv.path
  {
    [inv.client, "-cas-instance", inv.casInstance, "-cas-addr", inv.casService,
     "-dump-digest", inv.digestFile, "-use-adc", PathFlag(inv.unzip), inv.path]
    + ExcludeFilterArgs(inv.excludeFilters)
  }

  /** Builds the client's argument list step by step: the fixed prefix, one path flag chosen by
      `unzip`, then one exclude-filter pair per filter. */
  method BuildUploadCommand(client: string, casInstance: string, casService: string, digestFile: string,
                            artifact: ArtifactConfig, tmpDir: string)
    returns (cmd: seq<string>)
    ensures cmd == Command(InvocationFor(client, casInstance, casService, digestFile, artifact, tmpDir))
  {
    cmd := [client, "-cas-instance", casInstance, "-cas-addr", casService,
            "-dump-digest", digestFile, "-use-adc"];
    if artifact.unzip {
      cmd := cmd + ["-zip-path", artifact.sourcePath];
    } else {
      cmd := cmd + ["-dir-path", tmpDir];
    }
    ghost var head := cmd;
    var filters := artifact.excludeFilters;
    for i := 0 to |filters|
      invariant cmd == head + ExcludeFilterArgs(filters[..i])
    {
      ExcludeFilterArgsSnoc(filters[..i], filters[i]);
      assert filters[..i + 1] == filters[..i] + [filters[i]];
      cmd := cmd + ["-exclude-filters", filters[i]];
    }
    assert filters[..|filters|] == filters;
  }

  lemma {:induction false} ExcludeFilterArgsSnoc(filters: seq<string>, f: string)
    ensures ExcludeFilterArgs(filters + [f]) == ExcludeFilterArgs(filters) + ["-exclude-filters", f]
    decreases |filters|
  {
    if filters == [] {
      assert ExcludeFilterArgs([f]) == ["-exclude-filters", f] + ExcludeFilterArgs([]);
    } else {
      assert (filters + [f])[1..] == filters[1..] + [f];
      ExcludeFilterArgsSnoc(filters[1..], f);
    }
  }

  /** Filter k sits at offset 2k + 1, after its own "-exclude-filters" flag. */
  lemma {:induction false} ExcludeFilterArgsAt(filters: seq<string>)
    ensures |ExcludeFilterArgs(filters)| == 2 * |filters|
    ensures forall k :: 0 <= k < |filters| ==>
      ExcludeFilterArgs(filters)[2 * k] == "-exclude-filters" && ExcludeFilterArgs(filters)[2 * k + 1] == filters[k]
    decreases |filters|
  {
    if filters != [] {
      ExcludeFilterArgsAt(filters[1..]);
      var rest := ExcludeFilterArgs(filters[1..]);
      assert ExcludeFilterArgs(filters) == ["-exclude-filters", filters[0]] + rest;
      forall k | 1 <= k < |filters|
        ensures ExcludeFilterArgs(filters)[2 * k] == "-exclude-filters"
        ensures ExcludeFilterArgs(filters)[2 * k + 1] == filters[k]
      {
        assert rest[2 * (k - 1)] == "-exclude-filters";
        assert rest[2 * (k - 1) + 1] == filters[1..][k - 1];
      }
    }
  }

  /** The argument list starts with the client and the fixed flags in order, carries exactly one
      path flag (at position 8, chosen by `unzip`) and then the filter pairs in order, and has
      10 + 2 * |filters| entries. */
  lemma CommandShape(client: string, casInstance: string, casService: string, digestFile: string,
                     artifact: ArtifactConfig, tmpDir: string)
    ensures var cmd := Command(InvocationFor(client, casInstance, casService, digestFile, artifact, tmpDir));
      && |cmd| == 10 + 2 * |artifact.excludeFilters|
      && cmd[..8] == [client, "-cas-instance", casInstance, "-cas-addr", casService,
                      "-dump-digest", digestFile, "-use-adc"]
      && (artifact.unzip ==> cmd[8..10] == ["-zip-path", artifact.sourcePath])
      && (!artifact.unzip ==> cmd[8..10] == ["-dir-path", tmpDir])
      && (forall k :: 0 <= k < |artifact.excludeFilters| ==>
            cmd[10 + 2 * k] == "-exclude-filters" && cmd[11 + 2 * k] == artifact.excludeFilters[k])
  {
    var inv := InvocationFor(client, casInstance, casService, digestFile, artifact, tmpDir);
    ExcludeFilterArgsAt(inv.excludeFilters);
  }

  /** Of the flag positions (8, 10, 12, ...), only position 8 holds a path flag: "-zip-path" and
      "-dir-path" never both appear as flags. */
  lemma SinglePathFlag(inv: Invocation)
    ensures forall i :: 8 <= i < |Command(inv)| && i % 2 == 0 ==>
      (Command(inv)[i] in {"-zip-path", "-dir-path"} <==> i == 8)
  {
    var cmd := Command(inv);
    ExcludeFilterArgsAt(inv.excludeFilters);
    forall i | 10 <= i < |cmd| && i % 2 == 0
      ensures cmd[i] == "-exclude-filters"
    {
      var k := (i - 10) / 2;
      assert i == 10 + 2 * k;
    }
  }

  /** Reads exclude-filter pairs back from the tail of an argument list. */
  function ParseExcludeFilters(args: seq<string>): Option<seq<string>> {
    if args == [] then Some([])
    else if |args| >= 2 && args[0] == "-exclude-filters" then
      match ParseExcludeFilters(args[2..])
      case None => None
      case Some(rest) => Some([args[1]] + rest)
    else None
  }

  /** Reads an invocation back from an argument list laid out as the script lays it out. */
  function ParseCommand(cmd: seq<string>): Option<Invocation> {
    if |cmd| < 10 || cmd[1] != "-cas-instance" || cmd[3] != "-cas-addr" || cmd[5] != "-dump-digest"
       || cmd[7] != "-use-adc" || (cmd[8] != "-zip-path" && cmd[8] != "-dir-path")
    then None
    else
      match ParseExcludeFilters(cmd[10..])
      case None => None
      case Some(filters) =>
        Some(Invocation(cmd[0], cmd[2], cmd[4], cmd[6], cmd[8] == "-zip-path", cmd[9], filters))
  }

  lemma {:induction false} ExcludeFiltersRoundTrip(filters: seq<string>)
    ensures ParseExcludeFilters(ExcludeFilterArgs(filters)) == Some(filters)
    decreases |filters|
  {
    if filters != [] {
      var args := ExcludeFilterArgs(filters);
      assert args[2..] == ExcludeFilterArgs(filters[1..]);
      ExcludeFiltersRoundTrip(filters[1..]);
      assert [filters[0]] + filters[1..] == filters;
    }
  }

  /** The argument list determines the invocation: parsing it gives back every field. */
  lemma CommandRoundTrip(inv: Invocation)
    ensures ParseCommand(Command(inv)) == Some(inv)
  {
    var cmd := Command(inv);
    assert cmd[10..] == ExcludeFilterArgs(inv.excludeFilters);
    ExcludeFiltersRoundTrip(inv.excludeFilters);
  }

  /** Distinct invocations never share an argument list. */
  lemma CommandInjective(a: Invocation, b: Invocation)
    requires Command(a) == Command(b)
    ensures a == b
  {
    CommandRoundTrip(a);
    CommandRoundTrip(b);
  }

  /** How the client process ended. */
  datatype ExitStatus = Exited(code: int) | TimedOut

  /** One client run: how it ended and what it wrote to the digest file. */
  datatype ClientRun = ClientRun(status: ExitStatus, dumpedDigest: string)

  /** The result of an upload: `Some(digest)` for a clean exit with a dumped digest, `None` for
      a non-zero exit or an empty digest file, and a TimeoutExpired that escapes otherwise. */
  function UploadResultOf(run: ClientRun): (r: Result<Option<string>, Raised>)
    ensures r.Failure? <==> run.status.TimedOut?
    ensures r.Failure? ==> r.error == TimeoutExpired(UploaderTimeoutSecs)
    ensures r == Success(None) <==> run.status.Exited? && (run.status.code != 0 || run.dumpedDigest == "")
    ensures r.Success? && r.value.Some? ==> r.value.value == run.dumpedDigest && r.value.value != ""
  {
    match run.status
    case TimedOut => Failure(TimeoutExpired(UploaderTimeoutSecs))
    case Exited(code) =>
      if code != 0 then Success(None)
      else if run.dumpedDigest != "" then Success(Some(run.dumpedDigest))
      else Success(None)
  }

  /** Uploads `artifact`: builds the argument list, runs the client on it (`invoke` stands for
      the subprocess) and classifies the outcome. */
  method Upload(client: string, casInstance: string, casService: string, artifact: ArtifactConfig,
                digestFile: string, tmpDir: string, invoke: seq<string> -> ClientRun)
    returns (cmd: seq<string>, result: Result<Option<string>, Raised>)
    ensures cmd == Command(InvocationFor(client, casInstance, casService, digestFile, artifact, tmpDir))
    ensures result == UploadResultOf(invoke(cmd))
  {
    cmd := BuildUploadCommand(client, casInstance, casService, digestFile, artifact, tmpDir);
    var run := invoke(cmd);
    result := UploadResultOf(run);
  }
}
