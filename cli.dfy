/**
 * The single-file command line: `prog IN_GZ OUT_GZ` filters one compressed
 * VCF into another and prints a one-line summary of the funnel, choosing its
 * exit status among usage error (1), missing input (2), I/O failure (3) and
 * success (0).
 *
 * The file system is a parameter: a map from the input paths that exist, or
 * whose existence cannot be checked, to what checking and reading them
 * yields, a map from the output paths whose parent directory cannot be
 * created to the error's text, and a map from the output paths that cannot
 * be opened for writing to the error's text. Printing to standard error is the
 * `stderr` list of messages.
 */
module FilterCli {
  import opened Options
  import opened Strings
  import opened FilterEngine

  /** What reading an existing input path yields. */
  datatype InputStream =
      /** `exists()` raises (a `PermissionError` from `stat` under a directory that cannot be searched) */
    | StatFails(reason: string)
      /** every line, then end of file */
    | Complete(lines: seq<string>)
      /** an `OSError` on opening (a directory, no permission); nothing is read */
    | Unopenable(reason: string)
      /** these lines, then an `OSError` (a read error, a file that is not gzip) */
    | ReadError(lines: seq<string>, reason: string)
      /** these lines, then an error that is not an `OSError` (a truncated or corrupt stream) */
    | Corrupt(lines: seq<string>, reason: string)

  /**
   * The existing input paths; the output paths whose parent directory cannot
   * be created (a component is a regular file, no permission); and the output
   * paths that cannot be opened for writing; each failure with its text.
   */
  datatype FileSystem = FileSystem(inputs: map<string, InputStream>, noParent: map<string, string>, unwritable: map<string, string>)

  /** The exit status, the lines left in the output file if it was created, and the messages on standard error. */
  datatype CliResult = CliResult(exitCode: int, output: Option<seq<string>>, stderr: seq<string>)

  const UsageExit: int := 1
  const InputNotFoundExit: int := 2
  const IoFailureExit: int := 3
  const SuccessExit: int := 0
  /** Python's status when an exception escapes the program. */
  const UncaughtExit: int := 1

  // ----- path names -----

  /** The last component of a path that is neither empty nor `.`, as `Path` normalises it; "" when there is none. */
  function LastName(parts: seq<string>): string
  {
    if |parts| == 0 then ""
    else if parts[|parts| - 1] == "" || parts[|parts| - 1] == "." then LastName(parts[..|parts| - 1])
    else parts[|parts| - 1]
  }

  /** `Path(p).name`. */
  function BaseName(p: string): string
  {
    LastName(Split(p, '/'))
  }

  /** The line that ends `Split(s + [sep] + name, sep)` is name. */
  lemma {:induction false} SplitLast(s: string, name: string, sep: char)
    requires sep !in name
    ensures Split(s + [sep] + name, sep) == Split(s, sep) + [name]
  {
    if |s| == 0 {
      assert s + [sep] + name == [sep] + name;
      assert ([sep] + name)[1..] == name;
      SplitPrefix(name, "", sep);
      assert name + "" == name;
    } else {
      assert (s + [sep] + name)[1..] == s[1..] + [sep] + name;
      SplitLast(s[1..], name, sep);
      var r := Split(s[1..], sep);
      if s[0] != sep {
        assert (r + [name])[1..] == r[1..] + [name];
      }
    }
  }

  lemma {:induction false} LastNameIsPart(parts: seq<string>)
    ensures LastName(parts) == "" || LastName(parts) in parts
  {
    if |parts| > 0 && (parts[|parts| - 1] == "" || parts[|parts| - 1] == ".") {
      LastNameIsPart(parts[..|parts| - 1]);
    }
  }

  /** A path's name has no slash, and is the file name a directory path ends with. */
  lemma BaseNameProperties(dir: string, name: string)
    requires '/' !in name && name != "" && name != "."
    ensures BaseName(dir + "/" + name) == name
    ensures '/' !in BaseName(dir)
  {
    SplitLast(dir, name, '/');
    var parts := Split(dir, '/') + [name];
    assert parts[..|parts| - 1] == Split(dir, '/');
    LastNameIsPart(Split(dir, '/'));
    SplitFieldsFree(dir, '/');
  }

  // ----- messages -----

  function UsageMessage(prog: string): string
  {
    "Usage:\n  " + prog + " IN_GZ OUT_GZ\n\nExample:\n  " + prog
    + " ../input/Cohort_A/001.g.vcf.gz ../output/filtered_gvcf/Cohort_A/001.het_dp20_gq30.vcf.gz\n"
  }

  /** The `key=value` fields of a summary, each after one space. */
  function Fields(kvs: seq<(string, string)>): string
  {
    if |kvs| == 0 then "" else " " + (kvs[0].0 + ("=" + (kvs[0].1 + Fields(kvs[1..]))))
  }

  /** The summary's fields in the order printed. */
  function SummaryFields(inName: string, outName: string, c: Counts): seq<(string, string)>
  {
    [("in", inName), ("out", outName), ("N_Records", Decimal(c.nRecords)), ("After_GT_Het", Decimal(c.afterGtHet)),
     ("After_DP", Decimal(c.afterDp)), ("After_GQ", Decimal(c.afterGq)), ("Het_Count", Decimal(c.HetCount()))]
  }

  /** The concise summary printed on success. */
  function SummaryLine(inName: string, outName: string, c: Counts): string
  {
    "[OK]" + Fields(SummaryFields(inName, outName, c))
  }

  // ----- the command -----

  /**
   * `main`: checks the argument count, then that the input exists, then runs
   * the filter, turning an `OSError` into status 3. The filter creates the
   * output's parent directory before it opens the input, and opens the output
   * after the input. An error that is not an
   * `OSError` escapes `main`, so Python reports it and exits with status 1;
   * so does one raised by the existence check, which is outside the `try`.
   * The output file, once opened, is closed with whatever was written to it.
   * Opening the output truncates it before any line is read, so when it is
   * the input itself the run reads no lines and the input is left empty.
   */
  method Execute(argv: seq<string>, fs: FileSystem) returns (r: CliResult)
    requires |argv| >= 1
    ensures |argv| != 3 ==> r == CliResult(UsageExit, None, [UsageMessage(BaseName(argv[0]))])
    ensures |argv| == 3 && argv[1] !in fs.inputs ==>
      r == CliResult(InputNotFoundExit, None, ["[ERROR] Input not found: " + argv[1]])
    ensures |argv| == 3 && argv[1] in fs.inputs ==>
      var input, outPath := fs.inputs[argv[1]], argv[2];
      if input.StatFails? then r == CliResult(UncaughtExit, None, [input.reason])
      else if outPath in fs.noParent then r == CliResult(IoFailureExit, None, ["[ERROR] I/O failure: " + fs.noParent[outPath]])
      else if input.Unopenable? then r == CliResult(IoFailureExit, None, ["[ERROR] I/O failure: " + input.reason])
      else if outPath in fs.unwritable then r == CliResult(IoFailureExit, None, ["[ERROR] I/O failure: " + fs.unwritable[outPath]])
      else if outPath == argv[1] then
        r == CliResult(SuccessExit, Some([]), [SummaryLine(BaseName(argv[1]), BaseName(outPath), Counts(0, 0, 0, 0, 0))])
      else
        var run := Run(input.lines);
        match input
        case Complete(_) =>
          r == CliResult(SuccessExit, Some(run.out), [SummaryLine(BaseName(argv[1]), BaseName(outPath), run.counts)])
        case ReadError(_, reason) => r == CliResult(IoFailureExit, Some(run.out), ["[ERROR] I/O failure: " + reason])
        case Corrupt(_, reason) => r == CliResult(UncaughtExit, Some(run.out), [reason])
    ensures r.exitCode == SuccessExit <==>
      && |argv| == 3 && argv[1] in fs.inputs && argv[2] !in fs.noParent && argv[2] !in fs.unwritable
      && (fs.inputs[argv[1]].Complete? || (argv[2] == argv[1] && !fs.inputs[argv[1]].StatFails? && !fs.inputs[argv[1]].Unopenable?))
    ensures r.exitCode in {SuccessExit, UsageExit, InputNotFoundExit, IoFailureExit, UncaughtExit}
  {
    if |argv| != 3 {
      return CliResult(UsageExit, None, [UsageMessage(BaseName(argv[0]))]);
    }
    var inPath, outPath := argv[1], argv[2];
    if inPath !in fs.inputs {
      return CliResult(InputNotFoundExit, None, ["[ERROR] Input not found: " + inPath]);
    }
    var input := fs.inputs[inPath];
    if input.StatFails? {
      return CliResult(UncaughtExit, None, [input.reason]);
    }
    if outPath in fs.noParent {
      return CliResult(IoFailureExit, None, ["[ERROR] I/O failure: " + fs.noParent[outPath]]);
    }
    if input.Unopenable? {
      return CliResult(IoFailureExit, None, ["[ERROR] I/O failure: " + input.reason]);
    }
    if outPath in fs.unwritable {
      return CliResult(IoFailureExit, None, ["[ERROR] I/O failure: " + fs.unwritable[outPath]]);
    }
    if outPath == inPath {
      var none, _ := FilterAndCount([]);
      return CliResult(SuccessExit, Some([]), [SummaryLine(BaseName(inPath), BaseName(outPath), none)]);
    }
    var counts, out := FilterAndCount(input.lines);
    match input
    case Complete(_) =>
      r := CliResult(SuccessExit, Some(out), [SummaryLine(BaseName(inPath), BaseName(outPath), counts)]);
    case ReadError(_, reason) =>
      r := CliResult(IoFailureExit, Some(out), ["[ERROR] I/O failure: " + reason]);
    case Corrupt(_, reason) =>
      r := CliResult(UncaughtExit, Some(out), [reason]);
  }
}
