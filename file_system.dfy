/**
 * The file system and child-process calls that converters/EpsToSvgConverter.js
 * makes, reduced to an abstract set of existing paths plus a trace of the
 * operations attempted. Whether each call succeeds is an oracle argument.
 */
module FileSystem {
  import opened Wrappers
  import opened BaseConverter

  /** A path as its list of segments; `path.join(dir, name)` appends one. */
  type Path = seq<string>

  function Join(dir: Path, name: string): (p: Path)
    ensures Within(p, dir) && |p| == |dir| + 1 && p[|dir|] == name
  {
    dir + [name]
  }

  /** `p` lies strictly below directory `dir`. */
  predicate Within(p: Path, dir: Path)
  {
    |dir| < |p| && p[..|dir|] == dir
  }

  /** The outcome an oracle assigns to one write or process step. */
  datatype Attempt = Succeeds | FailsWith(message: string)

  /** One operation the converter asked the system for, in the order asked. */
  datatype Effect =
    | ProbeTool                              // exec('inkscape --version')
    | CreateTempDir(parent: Path, namePrefix: string)
    | Write(path: Path)
    | Export(input: Path, output: Path)      // the Inkscape export command
    | Read(path: Path)
    | DeleteFile(path: Path)
    | DeleteDir(path: Path)

  /** The directory `mkdtemp` creates: the prefix segment with the generated suffix appended. */
  function TempName(parent: Path, namePrefix: string, suffix: string): (d: Path)
    ensures |d| == |parent| + 1 && d[..|parent|] == parent
  {
    parent + [namePrefix + suffix]
  }

  /** Deleting a file takes it away only when it exists and the oracle lets the call succeed. */
  function AfterUnlink(paths: set<Path>, p: Path, ok: bool): set<Path>
  {
    if ok && p in paths then paths - {p} else paths
  }

  /** `rmdir` succeeds only on an existing, empty directory. */
  predicate CanRemoveDir(paths: set<Path>, d: Path)
  {
    d in paths && forall q :: q in paths ==> !Within(q, d)
  }

  function AfterRemoveDir(paths: set<Path>, d: Path, ok: bool): set<Path>
  {
    if ok && CanRemoveDir(paths, d) then paths - {d} else paths
  }

  /** The paths that exist and the operations attempted so far. */
  class FileSystem {
    var paths: set<Path>
    var trace: seq<Effect>

    constructor (existing: set<Path>)
      ensures paths == existing && trace == []
    {
      paths := existing;
      trace := [];
    }

    /** Run the tool's version query; it never throws, it answers whether the tool runs. */
    method Probe(available: bool) returns (ok: bool)
      modifies this
      ensures ok == available
      ensures paths == old(paths) && trace == old(trace) + [ProbeTool]
    {
      ok := available;
      trace := trace + [ProbeTool];
    }

    /** `mkdtemp`: on success the new directory exists and its name is returned. */
    method MakeTempDir(parent: Path, namePrefix: string, outcome: Result<string, string>) returns (r: Result<Path, string>)
      modifies this
      ensures outcome.Success? ==> r == Success(TempName(parent, namePrefix, outcome.value))
      ensures outcome.Failure? ==> r == Failure(outcome.error)
      ensures paths == if r.Success? then old(paths) + {r.value} else old(paths)
      ensures trace == old(trace) + [CreateTempDir(parent, namePrefix)]
    {
      trace := trace + [CreateTempDir(parent, namePrefix)];
      if outcome.Success? {
        var d := TempName(parent, namePrefix, outcome.value);
        paths := paths + {d};
        r := Success(d);
      } else {
        r := Failure(outcome.error);
      }
    }

    /** `writeFile`: on success the file exists. */
    method WriteFile(p: Path, data: Bytes, outcome: Attempt) returns (r: Attempt)
      modifies this
      ensures r == outcome
      ensures paths == if r.Succeeds? then old(paths) + {p} else old(paths)
      ensures trace == old(trace) + [Write(p)]
    {
      trace := trace + [Write(p)];
      if outcome.Succeeds? {
        paths := paths + {p};
      }
      r := outcome;
    }

    /**
     * The export command. Its exit status and whether it leaves the output
     * file behind are separate oracle inputs: the tool may exit normally
     * without writing the file, or fail after writing part of it.
     */
    method RunTool(input: Path, output: Path, outcome: Attempt, writesOutput: bool) returns (r: Attempt)
      modifies this
      ensures r == outcome
      ensures paths == if writesOutput then old(paths) + {output} else old(paths)
      ensures trace == old(trace) + [Export(input, output)]
    {
      trace := trace + [Export(input, output)];
      if writesOutput {
        paths := paths + {output};
      }
      r := outcome;
    }

    /** `readFile`: yields the oracle's bytes or error; nothing on disk changes. */
    method ReadFile(p: Path, outcome: Result<Bytes, string>) returns (r: Result<Bytes, string>)
      modifies this
      ensures r == outcome
      ensures paths == old(paths) && trace == old(trace) + [Read(p)]
    {
      trace := trace + [Read(p)];
      r := outcome;
    }

    /** `unlink`: fails on a missing path, and any failure is reported, not thrown. */
    method Unlink(p: Path, ok: bool) returns (removed: bool)
      modifies this
      ensures removed <==> ok && p in old(paths)
      ensures paths == AfterUnlink(old(paths), p, ok)
      ensures trace == old(trace) + [DeleteFile(p)]
    {
      trace := trace + [DeleteFile(p)];
      removed := ok && p in paths;
      paths := AfterUnlink(paths, p, ok);
    }

    /** `rmdir`: fails on a missing or non-empty directory, and any failure is reported, not thrown. */
    method RemoveDir(d: Path, ok: bool) returns (removed: bool)
      modifies this
      ensures removed <==> ok && CanRemoveDir(old(paths), d)
      ensures paths == AfterRemoveDir(old(paths), d, ok)
      ensures trace == old(trace) + [DeleteDir(d)]
    {
      trace := trace + [DeleteDir(d)];
      removed := ok && CanRemoveDir(paths, d);
      paths := AfterRemoveDir(paths, d, ok);
    }
  }
}
