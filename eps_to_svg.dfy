/**
 * The reference converter (converters/EpsToSvgConverter.js): EPS to SVG by
 * way of Inkscape. `Convert` probes for the tool, creates a scratch directory,
 * writes the input, runs the export, reads the output back, and in every case
 * once the directory exists deletes the input file, the output file and the
 * directory, swallowing any failure of those deletions.
 *
 * The pure functions `ConvertOutcome`, `ConvertTrace` and `FinalPaths` say
 * what one call returns, which operations it attempts in which order, and
 * which paths exist afterwards; the lemmas below are stated about them and
 * the method `Convert` is proved to agree with all three.
 */
module EpsToSvg {
  import opened Wrappers
  import opened BaseConverter
  import opened FileSystem

  const InstallMessage := "Inkscape is required for EPS to SVG conversion. Please install Inkscape: https://inkscape.org/release/"
  const FailurePrefix := "EPS to SVG conversion failed: "
  const TempPrefix := "eps-converter-"
  const InputName := "input.eps"
  const OutputName := "output.svg"
  const Description := "Converts EPS (Encapsulated PostScript) files to SVG format"
  const Requirement := "Inkscape (https://inkscape.org/)"

  /**
   * What the outside world does during one call: whether the version probe
   * runs, the system's temporary directory, the suffix `mkdtemp` generates
   * (or the error it throws), how the write, the export and the read-back go,
   * whether the export leaves an output file behind, whatever its exit status,
   * and whether each of the three deletions would succeed on an existing path.
   */
  datatype ToolOracle = ToolOracle(
    inkscapeAvailable: bool,
    tmpRoot: Path,
    mkdtemp: Result<string, string>,
    write: Attempt,
    exec: Attempt,
    execWritesOutput: bool,
    read: Result<Bytes, string>,
    unlinkInputOk: bool,
    unlinkOutputOk: bool,
    rmdirOk: bool)

  /** The pair the constructor passes to the base class. */
  function Create(): (c: Converter)
    ensures c.cls == EpsToSvgConverter && c.fromFormat == "eps" && c.toFormat == "svg"
  {
    New(EpsToSvgConverter, "eps", "svg").value
  }

  /** `getInfo`: the base metadata merged with a description, the requirements and an empty options map. */
  function GetInfo(c: Converter): (r: Info)
    ensures r.from == c.fromFormat && r.to == c.toFormat && r.name == ClassName(c.cls)
    ensures r.details == Some(Details(Description, [Requirement], map[]))
  {
    BaseConverter.GetInfo(c).(details := Some(Details(Description, [Requirement], map[])))
  }

  /** The scratch directory of a call whose `mkdtemp` succeeded. */
  function TempDir(o: ToolOracle): Path
    requires o.mkdtemp.Success?
  {
    TempName(o.tmpRoot, TempPrefix, o.mkdtemp.value)
  }

  function InputPath(dir: Path): Path { Join(dir, InputName) }
  function OutputPath(dir: Path): Path { Join(dir, OutputName) }

  /** What the `try` block settles to: the bytes read back, or the first step error, prefixed. */
  function TryOutcome(o: ToolOracle): Outcome
  {
    if o.write.FailsWith? then Threw(FailurePrefix + o.write.message)
    else if o.exec.FailsWith? then Threw(FailurePrefix + o.exec.message)
    else match o.read
      case Failure(m) => Threw(FailurePrefix + m)
      case Success(bytes) => Converted(bytes)
  }

  /** What one call of `convert` returns or throws. */
  function ConvertOutcome(o: ToolOracle): Outcome
  {
    if !o.inkscapeAvailable then Threw(InstallMessage)
    else if o.mkdtemp.Failure? then Threw(o.mkdtemp.error)
    else TryOutcome(o)
  }

  /** The steps of the `try` block that are attempted: each runs only if the one before succeeded. */
  function TryTrace(o: ToolOracle, dir: Path): seq<Effect>
  {
    [Write(InputPath(dir))]
    + (if o.write.FailsWith? then []
       else [Export(InputPath(dir), OutputPath(dir))]
            + (if o.exec.FailsWith? then [] else [Read(OutputPath(dir))]))
  }

  /** The `finally` block: the three deletions, in this order. */
  function CleanupTrace(dir: Path): seq<Effect>
  {
    [DeleteFile(InputPath(dir)), DeleteFile(OutputPath(dir)), DeleteDir(dir)]
  }

  /** Every operation one call attempts, in order. */
  function ConvertTrace(o: ToolOracle): seq<Effect>
  {
    if !o.inkscapeAvailable then [ProbeTool]
    else if o.mkdtemp.Failure? then [ProbeTool, CreateTempDir(o.tmpRoot, TempPrefix)]
    else [ProbeTool, CreateTempDir(o.tmpRoot, TempPrefix)] + TryTrace(o, TempDir(o)) + CleanupTrace(TempDir(o))
  }

  /** The paths the `try` block leaves behind. */
  function TryPaths(paths: set<Path>, o: ToolOracle, dir: Path): set<Path>
  {
    if o.write.FailsWith? then paths
    else if o.execWritesOutput then paths + {InputPath(dir), OutputPath(dir)}
    else paths + {InputPath(dir)}
  }

  /** The paths the `finally` block leaves behind. */
  function CleanupPaths(paths: set<Path>, o: ToolOracle, dir: Path): set<Path>
  {
    var afterInput := AfterUnlink(paths, InputPath(dir), o.unlinkInputOk);
    var afterOutput := AfterUnlink(afterInput, OutputPath(dir), o.unlinkOutputOk);
    AfterRemoveDir(afterOutput, dir, o.rmdirOk)
  }

  /** The paths that exist after one call, given those that existed before. */
  function FinalPaths(paths: set<Path>, o: ToolOracle): set<Path>
  {
    if !o.inkscapeAvailable || o.mkdtemp.Failure? then paths
    else CleanupPaths(TryPaths(paths + {TempDir(o)}, o, TempDir(o)), o, TempDir(o))
  }

  /** `convert(inputBuffer, options)`. */
  method Convert(fs: FileSystem, input: Bytes, options: map<string, string>, o: ToolOracle) returns (r: Outcome)
    modifies fs
    ensures r == ConvertOutcome(o)
    ensures fs.trace == old(fs.trace) + ConvertTrace(o)
    ensures fs.paths == FinalPaths(old(fs.paths), o)
  {
    var available := fs.Probe(o.inkscapeAvailable);
    if !available {
      return Threw(InstallMessage);
    }
    var made := fs.MakeTempDir(o.tmpRoot, TempPrefix, o.mkdtemp);
    if made.Failure? {
      return Threw(made.error);
    }
    var dir := made.value;
    assert dir == TempDir(o);
    r := RunSteps(fs, dir, input, o);
    Cleanup(fs, dir, o);
  }

  /** The `try` block: write, export, read back, each step only after the previous one succeeded. */
  method RunSteps(fs: FileSystem, dir: Path, input: Bytes, o: ToolOracle) returns (r: Outcome)
    modifies fs
    ensures r == TryOutcome(o)
    ensures fs.trace == old(fs.trace) + TryTrace(o, dir)
    ensures fs.paths == TryPaths(old(fs.paths), o, dir)
  {
    var inputPath := Join(dir, InputName);
    var outputPath := Join(dir, OutputName);
    var written := fs.WriteFile(inputPath, input, o.write);
    if written.FailsWith? {
      return Threw(FailurePrefix + written.message);
    }
    var exported := fs.RunTool(inputPath, outputPath, o.exec, o.execWritesOutput);
    if exported.FailsWith? {
      return Threw(FailurePrefix + exported.message);
    }
    var svg := fs.ReadFile(outputPath, o.read);
    if svg.Failure? {
      r := Threw(FailurePrefix + svg.error);
    } else {
      r := Converted(svg.value);
    }
  }

  /** The `finally` block: three deletions, each failure caught and dropped. */
  method Cleanup(fs: FileSystem, dir: Path, o: ToolOracle)
    modifies fs
    ensures fs.trace == old(fs.trace) + CleanupTrace(dir)
    ensures fs.paths == CleanupPaths(old(fs.paths), o, dir)
  {
    var _ := fs.Unlink(Join(dir, InputName), o.unlinkInputOk);
    var _ := fs.Unlink(Join(dir, OutputName), o.unlinkOutputOk);
    var _ := fs.RemoveDir(dir, o.rmdirOk);
  }

  /** `dir` names nothing that exists yet, and nothing exists below it. */
  predicate Fresh(paths: set<Path>, dir: Path)
  {
    dir !in paths && forall q :: q in paths ==> !Within(q, dir)
  }

  /** The probe comes first; when it fails nothing else is attempted and no path is created. */
  lemma ProbeFailsFast(paths: set<Path>, o: ToolOracle)
    ensures ConvertTrace(o)[0] == ProbeTool
    ensures !o.inkscapeAvailable ==>
      ConvertOutcome(o) == Threw(InstallMessage) && ConvertTrace(o) == [ProbeTool] && FinalPaths(paths, o) == paths
  {
  }

  /** A `mkdtemp` error escapes before the `try`: it is not prefixed and no cleanup is attempted. */
  lemma TempDirFailureUnwrapped(paths: set<Path>, o: ToolOracle)
    requires o.inkscapeAvailable && o.mkdtemp.Failure?
    ensures ConvertOutcome(o) == Threw(o.mkdtemp.error)
    ensures ConvertTrace(o) == [ProbeTool, CreateTempDir(o.tmpRoot, TempPrefix)]
    ensures FinalPaths(paths, o) == paths
  {
  }

  /** Both scratch files lie inside the scratch directory, and they are distinct. */
  lemma ScratchFilesInsideTempDir(o: ToolOracle)
    requires o.mkdtemp.Success?
    ensures Within(InputPath(TempDir(o)), TempDir(o)) && Within(OutputPath(TempDir(o)), TempDir(o))
    ensures InputPath(TempDir(o)) != OutputPath(TempDir(o))
  {
    assert InputPath(TempDir(o))[|TempDir(o)|] != OutputPath(TempDir(o))[|TempDir(o)|];
  }

  /** The reference definition of "the first step of the `try` block that failed, if any". */
  function FirstStepError(o: ToolOracle): Option<string>
  {
    if o.write.FailsWith? then Some(o.write.message)
    else if o.exec.FailsWith? then Some(o.exec.message)
    else if o.read.Failure? then Some(o.read.error)
    else None
  }

  /**
   * Once the directory exists the call fails exactly when a step of the `try`
   * block fails, with that step's message behind the prefix, and succeeds
   * with exactly the bytes read back otherwise.
   */
  lemma StepErrorsWrapped(o: ToolOracle)
    requires o.inkscapeAvailable && o.mkdtemp.Success?
    ensures ConvertOutcome(o).Threw? <==> FirstStepError(o).Some?
    ensures FirstStepError(o).Some? ==> ConvertOutcome(o) == Threw(FailurePrefix + FirstStepError(o).value)
    ensures FirstStepError(o).None? ==> ConvertOutcome(o) == Converted(o.read.value)
  {
  }

  /** A call succeeds exactly when every step succeeds, and it returns the bytes read back. */
  lemma SuccessIffAllStepsSucceed(o: ToolOracle, bytes: Bytes)
    ensures ConvertOutcome(o) == Converted(bytes) <==>
      o.inkscapeAvailable && o.mkdtemp.Success? && o.write.Succeeds? && o.exec.Succeeds? && o.read == Success(bytes)
  {
  }

  /**
   * Once the directory exists, every exit path ends with the three deletions
   * in order, and no deletion is attempted before them.
   */
  lemma CleanupAlwaysAttempted(o: ToolOracle)
    requires o.inkscapeAvailable && o.mkdtemp.Success?
    ensures var t := ConvertTrace(o);
      |t| >= 6 && t[|t| - 3..] == CleanupTrace(TempDir(o))
      && forall k :: 0 <= k < |t| - 3 ==> !t[k].DeleteFile? && !t[k].DeleteDir?
  {
    var t := ConvertTrace(o);
    var d := TempDir(o);
    var head := [ProbeTool, CreateTempDir(o.tmpRoot, TempPrefix)] + TryTrace(o, d);
    assert t == head + CleanupTrace(d);
    assert t[|t| - 3..] == CleanupTrace(d);
    forall k | 0 <= k < |t| - 3
      ensures !t[k].DeleteFile? && !t[k].DeleteDir?
    {
      assert t[k] == head[k];
    }
  }

  /** Whether the deletions succeed changes neither the result nor the operations attempted. */
  lemma CleanupNeverChangesOutcome(o: ToolOracle, unlinkInputOk: bool, unlinkOutputOk: bool, rmdirOk: bool)
    ensures var o' := o.(unlinkInputOk := unlinkInputOk, unlinkOutputOk := unlinkOutputOk, rmdirOk := rmdirOk);
      ConvertOutcome(o') == ConvertOutcome(o) && ConvertTrace(o') == ConvertTrace(o)
  {
  }

  /** A call never removes a path that existed before it, and its own file-system calls create nothing outside its scratch workspace. */
  lemma PreexistingPathsKept(paths: set<Path>, o: ToolOracle)
    requires o.mkdtemp.Success? ==> Fresh(paths, TempDir(o))
    ensures paths <= FinalPaths(paths, o)
    ensures o.mkdtemp.Success? ==>
      FinalPaths(paths, o) <= paths + {TempDir(o), InputPath(TempDir(o)), OutputPath(TempDir(o))}
  {
    if o.inkscapeAvailable && o.mkdtemp.Success? {
      var d := TempDir(o);
      ScratchFilesInsideTempDir(o);
      assert InputPath(d) !in paths && OutputPath(d) !in paths;
    }
  }

  /** When the three deletions succeed, the scratch workspace is gone and nothing else changed. */
  lemma NoScratchLeft(paths: set<Path>, o: ToolOracle)
    requires o.mkdtemp.Success? ==> Fresh(paths, TempDir(o))
    requires o.unlinkInputOk && o.unlinkOutputOk && o.rmdirOk
    ensures FinalPaths(paths, o) == paths
  {
    if o.inkscapeAvailable && o.mkdtemp.Success? {
      var d := TempDir(o);
      ScratchFilesInsideTempDir(o);
      var tried := TryPaths(paths + {d}, o, d);
      assert InputPath(d) !in paths && OutputPath(d) !in paths;
      var afterInput := AfterUnlink(tried, InputPath(d), true);
      var afterOutput := AfterUnlink(afterInput, OutputPath(d), true);
      assert afterOutput == paths + {d};
      assert CanRemoveDir(afterOutput, d) by {
        forall q | q in afterOutput ensures !Within(q, d) {
          if q == d {
            assert |q| == |d|;
          }
        }
      }
      assert AfterRemoveDir(afterOutput, d, true) == paths;
    }
  }
}
