/**
 Import-path resolution and the compiler command line.

 The search path handed to the compiler is the explicitly given import
 paths, then the scratch directory holding the generated sources, then the
 pieces of an inherited `CSL_IMPORT_PATH`, each made absolute. The list is
 written back into `CSL_IMPORT_PATH` joined by `:`, and passed on the
 command line as one `--import-path` flag per entry, before the arguments
 compconf did not recognise.

 Making a path absolute depends on the working directory, so it is a
 parameter here.
 */
module ImportPaths {
  import opened Wrappers
  import PyStr

  const ImportPathVar: string := "CSL_IMPORT_PATH"
  const ImportPathFlag: string := "--import-path"

  function Map(paths: seq<string>, abspath: string -> string): (r: seq<string>)
    ensures |r| == |paths|
    ensures forall i :: 0 <= i < |paths| ==> r[i] == abspath(paths[i])
  {
    if |paths| == 0 then [] else [abspath(paths[0])] + Map(paths[1..], abspath)
  }

  /** The paths to search before any absolute-path conversion. */
  function Requested(explicit: seq<string>, tmpdir: string, inherited: Option<string>): seq<string>
  {
    explicit + [tmpdir] + (if inherited.Some? then PyStr.Split(inherited.value, ':') else [])
  }

  /**
   The resolved search path: explicit paths first, the scratch directory
   next, then every `:`-separated piece of the inherited variable (an empty
   variable still contributes one empty piece), each passed through
   `abspath`. Nothing is removed or reordered.
   */
  function ResolveImportPaths(explicit: seq<string>, tmpdir: string, inherited: Option<string>,
                              abspath: string -> string): (r: seq<string>)
    ensures |r| == |explicit| + 1 + (if inherited.Some? then PyStr.Count(inherited.value, ':') + 1 else 0)
    ensures forall i :: 0 <= i < |explicit| ==> r[i] == abspath(explicit[i])
    ensures r[|explicit|] == abspath(tmpdir)
    ensures inherited.Some? ==>
              forall j :: 0 <= j < PyStr.Count(inherited.value, ':') + 1 ==>
                r[|explicit| + 1 + j] == abspath(PyStr.Split(inherited.value, ':')[j])
  {
    Map(Requested(explicit, tmpdir, inherited), abspath)
  }

  /** The value `CSL_IMPORT_PATH` is given for the compiler: the resolved paths joined by `:`. */
  function ImportPathValue(paths: seq<string>): string
  {
    PyStr.Join(paths, ':')
  }

  /**
   Splitting the exported variable gives the resolved list back, as long as
   no path holds a `:` itself; so a nested run that inherits the variable
   sees the same search path.
   */
  lemma ImportPathValueRoundTrip(paths: seq<string>)
    requires |paths| > 0
    requires forall i :: 0 <= i < |paths| ==> ':' !in paths[i]
    ensures PyStr.Split(ImportPathValue(paths), ':') == paths
  {
    PyStr.SplitJoin(paths, ':');
  }

  /** `flag, p0, flag, p1, ...`: each path preceded by the flag. */
  function Interleave(flag: string, paths: seq<string>): (r: seq<string>)
    ensures |r| == 2 * |paths|
  {
    if |paths| == 0 then [] else [flag, paths[0]] + Interleave(flag, paths[1..])
  }

  /** Position `2 i` holds the flag and position `2 i + 1` the `i`-th path. */
  lemma {:induction false} InterleaveAt(flag: string, paths: seq<string>, i: nat)
    requires i < |paths|
    ensures Interleave(flag, paths)[2 * i] == flag
    ensures Interleave(flag, paths)[2 * i + 1] == paths[i]
    decreases i
  {
    if i > 0 {
      InterleaveAt(flag, paths[1..], i - 1);
      var rest := Interleave(flag, paths[1..]);
      assert Interleave(flag, paths)[2 * i] == rest[2 * (i - 1)];
      assert Interleave(flag, paths)[2 * i + 1] == rest[2 * (i - 1) + 1];
    }
  }

  /** The compiler's command line: the compiler, one flag per path, then the unrecognised arguments. */
  function CompilerArgv(cslc: string, paths: seq<string>, unknown: seq<string>): (r: seq<string>)
    ensures |r| == 1 + 2 * |paths| + |unknown|
    ensures r[0] == cslc
    ensures r[1 + 2 * |paths|..] == unknown
  {
    var r := [cslc] + Interleave(ImportPathFlag, paths) + unknown;
    assert r[1 + 2 * |paths|..] == unknown;
    r
  }

  /** Every resolved path appears once on the command line, right after its own flag. */
  lemma CompilerArgvPairs(cslc: string, paths: seq<string>, unknown: seq<string>, i: nat)
    requires i < |paths|
    ensures CompilerArgv(cslc, paths, unknown)[1 + 2 * i] == ImportPathFlag
    ensures CompilerArgv(cslc, paths, unknown)[2 + 2 * i] == paths[i]
  {
    InterleaveAt(ImportPathFlag, paths, i);
    var r := CompilerArgv(cslc, paths, unknown);
    var mid := Interleave(ImportPathFlag, paths);
    assert r[1 + 2 * i] == mid[2 * i];
    assert r[2 + 2 * i] == mid[2 * i + 1];
  }

  /** Reads `flag, p` pairs from the front of `args`; the paths read and what is left. */
  function ReadFlags(flag: string, args: seq<string>): (seq<string>, seq<string>)
  {
    if |args| >= 2 && args[0] == flag then
      var (more, rest) := ReadFlags(flag, args[2..]);
      ([args[1]] + more, rest)
    else ([], args)
  }

  lemma {:induction false} ReadInterleaved(flag: string, paths: seq<string>, rest: seq<string>)
    requires |rest| < 2 || rest[0] != flag
    ensures ReadFlags(flag, Interleave(flag, paths) + rest) == (paths, rest)
    decreases |paths|
  {
    if |paths| > 0 {
      var s := Interleave(flag, paths) + rest;
      assert s[2..] == Interleave(flag, paths[1..]) + rest;
      ReadInterleaved(flag, paths[1..], rest);
      assert [paths[0]] + paths[1..] == paths;
    } else {
      assert Interleave(flag, paths) + rest == rest;
    }
  }

  /**
   A command line read back: the compiler, then the import paths from the
   `--import-path` pairs, then the rest. It returns what `CompilerArgv` was
   given when the unrecognised arguments do not begin with a flag pair.
   */
  function ReadArgv(argv: seq<string>): Option<(string, seq<string>, seq<string>)>
  {
    if |argv| == 0 then None
    else
      var (paths, rest) := ReadFlags(ImportPathFlag, argv[1..]);
      Some((argv[0], paths, rest))
  }

  lemma ArgvRoundTrip(cslc: string, paths: seq<string>, unknown: seq<string>)
    requires |unknown| < 2 || unknown[0] != ImportPathFlag
    ensures ReadArgv(CompilerArgv(cslc, paths, unknown)) == Some((cslc, paths, unknown))
  {
    var r := CompilerArgv(cslc, paths, unknown);
    assert r[1..] == Interleave(ImportPathFlag, paths) + unknown;
    ReadInterleaved(ImportPathFlag, paths, unknown);
  }

  /**
   Two explicit paths, no inherited variable and the scratch directory
   `/tmp/xyz`, with paths that are already absolute: the search path is the
   two paths then the scratch directory, in that order.
   */
  lemma ResolveExample(abspath: string -> string)
    requires forall p :: abspath(p) == p
    ensures ResolveImportPaths(["/a", "/b"], "/tmp/xyz", None, abspath) == ["/a", "/b", "/tmp/xyz"]
    ensures ImportPathValue(["/a", "/b", "/tmp/xyz"]) == "/a:/b:/tmp/xyz"
    ensures CompilerArgv("cslc", ["/a", "/b", "/tmp/xyz"], [])
         == ["cslc", "--import-path", "/a", "--import-path", "/b", "--import-path", "/tmp/xyz"]
  {
    var r := ResolveImportPaths(["/a", "/b"], "/tmp/xyz", None, abspath);
    assert r == ["/a", "/b", "/tmp/xyz"];
    var ps := ["/a", "/b", "/tmp/xyz"];
    assert ps[1..][1..] == ["/tmp/xyz"];
    assert PyStr.Join(ps[1..], ':') == "/b" + ":" + "/tmp/xyz";
    var argv := CompilerArgv("cslc", ps, []);
    assert |argv| == 7;
  }
}
