/**
 One run of compconf, from its inputs to the artifacts it hands the
 compiler: the merged configuration, the two generated sources, the
 resolved search path and the compiler's command line.

 Everything the run asks of the outside world is a parameter: JSON
 parsing, the jq engine, making a path absolute, and the printable test
 `repr` applies to non-ASCII characters (the `Host`); the base file's
 contents, the environment and the scratch directory (the `Invocation`).
 */
module Driver {
  import opened Wrappers
  import opened Json
  import EnvOverlay
  import Transform
  import Merge
  import AccessorSource
  import RawSource
  import ImportPaths
  import PyStr
  import PyRepr
  import KeyCodec
  import LiteralReader

  datatype Host = Host(
    loads: string -> Option<Value>,
    jq: Transform.Jq,
    abspath: string -> string,
    isPrintable: char -> bool)

  /**
   The parsed command line and what the run finds around it. `dataText` is
   the base file's text when `--compconf-data` names one; `dump` is the
   `--compconf-dump` path, empty to skip the copy.
   */
  datatype Invocation = Invocation(
    cslc: string,
    dataText: Option<string>,
    dump: string,
    jqCommands: seq<string>,
    importPaths: seq<string>,
    unknown: seq<string>,
    env: EnvOverlay.Env,
    tmpdir: string)

  datatype Artifacts = Artifacts(
    data: Value,            // the merged configuration, written to `dataPath`
    dataPath: string,
    dumpCopy: Option<string>,  // where the data file is copied, if anywhere
    source: string,         // the accessor source
    raw: string,            // the raw-constants source
    importPaths: seq<string>,
    importPathValue: string,   // the new value of CSL_IMPORT_PATH
    argv: seq<string>)

  datatype RunError =
    | MergeFailed(error: Merge.MergeError)
    /**
     The merged data is not a dict, so it has no entries to declare. By the
     time the raw module is built the data file has been written and copied
     to the dump path; the copy outlives the run.
     */
    | DataNotObject(data: Value, dumpCopy: Option<string>)

  function DataPath(tmpdir: string): string
  {
    tmpdir + "/data.json"
  }

  function DumpCopy(dump: string): Option<string>
  {
    if dump == "" then None else Some(dump)
  }

  function MergedData(inv: Invocation, host: Host): Result<Value, Merge.MergeError>
  {
    Merge.Merge(inv.dataText, inv.env, inv.jqCommands, host.loads, host.jq)
  }

  /**
   A run up to the compiler call. It fails exactly when the merge fails or
   the merged data is not a dict; otherwise every artifact is built from the
   merged data and the invocation as the sources below describe.
   */
  function Run(inv: Invocation, host: Host): (r: Result<Artifacts, RunError>)
    ensures r.Success? <==> MergedData(inv, host).Success? && MergedData(inv, host).value.Object?
    ensures r.Failure? && r.error.MergeFailed? ==> MergedData(inv, host) == Failure(r.error.error)
    ensures r.Failure? && r.error.DataNotObject? ==>
              && MergedData(inv, host) == Success(r.error.data)
              && (r.error.dumpCopy.Some? <==> inv.dump != "")
              && (r.error.dumpCopy.Some? ==> r.error.dumpCopy.value == inv.dump)
    ensures r.Success? ==>
              && r.value.data == MergedData(inv, host).value
              && |r.value.argv| == 1 + 2 * |r.value.importPaths| + |inv.unknown|
              && r.value.argv[0] == inv.cslc
              && r.value.argv[1 + 2 * |r.value.importPaths|..] == inv.unknown
              && r.value.argv == ImportPaths.CompilerArgv(inv.cslc, r.value.importPaths, inv.unknown)
              && AccessorSource.DataPathOf(r.value.source) == Some(r.value.dataPath)
              && r.value.dataPath == DataPath(inv.tmpdir)
              && (r.value.dumpCopy.Some? <==> inv.dump != "")
              && (r.value.dumpCopy.Some? ==> r.value.dumpCopy.value == inv.dump)
              && r.value.importPaths
                 == ImportPaths.ResolveImportPaths(inv.importPaths, inv.tmpdir,
                                                   EnvOverlay.Lookup(inv.env, ImportPaths.ImportPathVar), host.abspath)
              && r.value.importPathValue == ImportPaths.ImportPathValue(r.value.importPaths)
  {
    match MergedData(inv, host)
    case Failure(e) => Failure(MergeFailed(e))
    case Success(data) =>
      if !data.Object? then Failure(DataNotObject(data, DumpCopy(inv.dump)))
      else
        var dataPath := DataPath(inv.tmpdir);
        var inherited := EnvOverlay.Lookup(inv.env, ImportPaths.ImportPathVar);
        var paths := ImportPaths.ResolveImportPaths(inv.importPaths, inv.tmpdir, inherited, host.abspath);
        AccessorSource.DataPathRoundTrip(dataPath);
        Success(Artifacts(
          data,
          dataPath,
          DumpCopy(inv.dump),
          AccessorSource.MakeCslSource(dataPath),
          RawSource.MakeCslRaw(data.fields, host.isPrintable),
          paths,
          ImportPaths.ImportPathValue(paths),
          ImportPaths.CompilerArgv(inv.cslc, paths, inv.unknown)))
  }

  /**
   The raw-constants source of a successful run declares exactly the merged
   entries, in order, when no key has a space and no string a quote.
   */
  lemma RunRawReadsBack(inv: Invocation, host: Host, a: Artifacts)
    requires Run(inv, host) == Success(a)
    requires RawSource.Readable(a.data.fields)
    ensures RawSource.ReadRaw(a.raw) == Some(a.data.fields)
  {
    RawSource.RawRoundTrip(a.data.fields, host.isPrintable);
  }

  /**
   The compiler's command line of a successful run reads back to the
   compiler, every resolved path once after its own flag, and the unknown
   arguments, whatever the paths hold.
   */
  lemma RunArgvReadBack(inv: Invocation, host: Host, a: Artifacts)
    requires Run(inv, host) == Success(a)
    requires |inv.unknown| < 2 || inv.unknown[0] != ImportPaths.ImportPathFlag
    ensures ImportPaths.ReadArgv(a.argv) == Some((inv.cslc, a.importPaths, inv.unknown))
  {
    ImportPaths.ArgvRoundTrip(inv.cslc, a.importPaths, inv.unknown);
  }

  /**
   In a successful run's command line, each resolved path sits right after
   its own `--import-path` flag, in search-path order.
   */
  lemma RunArgvPairs(inv: Invocation, host: Host, a: Artifacts, i: nat)
    requires Run(inv, host) == Success(a)
    requires i < |a.importPaths|
    ensures a.argv[1 + 2 * i] == ImportPaths.ImportPathFlag
    ensures a.argv[2 + 2 * i] == a.importPaths[i]
  {
    ImportPaths.CompilerArgvPairs(inv.cslc, a.importPaths, inv.unknown, i);
  }

  /**
   The exported variable of a successful run splits back into the resolved
   paths when none holds a `:`.
   */
  lemma RunPathsReadBack(inv: Invocation, host: Host, a: Artifacts)
    requires Run(inv, host) == Success(a)
    requires forall i :: 0 <= i < |a.importPaths| ==> ':' !in a.importPaths[i]
    ensures PyStr.Split(a.importPathValue, ':') == a.importPaths
  {
    ImportPaths.ImportPathValueRoundTrip(a.importPaths);
  }

  /**
   No base file, one overlay variable `COMPCONFENV_x__u32=1` that parses as
   the number 1, no jq commands: the data is the sentinel then `x:u32`, and
   the raw source declares both in that order.
   */
  lemma OneVariableExample(host: Host, inv: Invocation)
    requires inv.dataText == None && inv.jqCommands == []
    requires inv.env == [("COMPCONFENV_x__u32", "1")]
    requires host.loads("1") == Some(Int(1))
    ensures Run(inv, host).Success?
    ensures Run(inv, host).value.data
         == Object([Entry("_compconf_dummy:u32", Int(42)), Entry("x:u32", Int(1))])
    ensures Run(inv, host).value.raw
         == RawSource.Header
            + ("const " + "_compconf_dummy:u32" + " = " + "42" + ";\n")
            + ("const " + "x:u32" + " = " + "1" + ";\n")
  {
    var d := [Entry("_compconf_dummy:u32", Int(42)), Entry("x:u32", Int(1))];
    assert IndexOf([], Merge.SentinelKey) == None;
    assert Set([], Merge.SentinelKey, Merge.SentinelValue) == [Entry(Merge.SentinelKey, Merge.SentinelValue)];
    ExampleOverlay(host.loads);
    assert Merge.Overlaid(None, inv.env, host.loads) == Success(d);
    assert MergedData(inv, host) == Success(Object(d));
    ExampleRaw(d, host.isPrintable);
  }

  lemma ExampleOverlay(loads: string -> Option<Value>)
    requires loads("1") == Some(Int(1))
    ensures EnvOverlay.ApplyEnv([Entry("_compconf_dummy:u32", Int(42))], [("COMPCONFENV_x__u32", "1")], loads)
         == [Entry("_compconf_dummy:u32", Int(42)), Entry("x:u32", Int(1))]
  {
    var d0 := [Entry("_compconf_dummy:u32", Int(42))];
    var env: EnvOverlay.Env := [("COMPCONFENV_x__u32", "1")];
    KeyCodec.ExampleKey();
    assert EnvOverlay.IsOverlay(env[0].0) by {
      assert env[0].0 == KeyCodec.EnvPrefix + "x__u32";
    }
    assert IndexOf(d0, "x:u32") == None by {
      assert d0[0].key != "x:u32";
      assert IndexOf(d0[1..], "x:u32") == None;
    }
    assert EnvOverlay.Step(d0, env[0], loads) == d0 + [Entry("x:u32", Int(1))];
    assert env[1..] == [];
  }

  /** The raw source of the example's two entries. */
  lemma ExampleRaw(d: Doc, isPrintable: char -> bool)
    requires d == [Entry("_compconf_dummy:u32", Int(42)), Entry("x:u32", Int(1))]
    ensures RawSource.MakeCslRaw(d, isPrintable)
         == RawSource.Header
            + ("const " + "_compconf_dummy:u32" + " = " + "42" + ";\n")
            + ("const " + "x:u32" + " = " + "1" + ";\n")
  {
    ExampleLine("_compconf_dummy:u32", 42, "42", isPrintable);
    ExampleLine("x:u32", 1, "1", isPrintable);
    TwoLines(d, isPrintable);
  }

  lemma TwoLines(d: Doc, isPrintable: char -> bool)
    requires |d| == 2
    ensures RawSource.RawLines(d, isPrintable) == RawSource.RawLine(d[0], isPrintable) + RawSource.RawLine(d[1], isPrintable)
  {
    assert RawSource.RawLines(d[1..][1..], isPrintable) == "";
    var l1 := RawSource.RawLine(d[1], isPrintable);
    assert l1 + "" == l1;
  }

  lemma ExampleLine(key: string, n: nat, digits: string, isPrintable: char -> bool)
    requires PyRepr.NatDigits(n) == digits
    ensures RawSource.RawLine(Entry(key, Int(n)), isPrintable) == "const " + key + " = " + digits + ";\n"
  {
    SmallIntLiteral(n, isPrintable);
  }

  /** A non-negative int's literal is its digits. */
  lemma SmallIntLiteral(n: nat, isPrintable: char -> bool)
    ensures PyRepr.Literal(Int(n), isPrintable) == PyRepr.NatDigits(n)
  {
    LiteralReader.IntReprShape(n);
    PyStr.ReplaceCharAbsent(PyRepr.NatDigits(n), '\'', "\"");
  }
}
