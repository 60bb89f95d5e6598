/** The benchmark launcher (BenchmarkRunner.java): the command-line parser that fills a
    `BenchmarkConfig`, its defaults, and the choice of benchmark. */
module BenchmarkRunner {
  import opened Results
  import opened Text
  import opened JavaInt

  /** The exceptions `parseArgs` lets escape: `args[++i]` past the end, and `Integer.parseInt`
      on a malformed number. */
  datatype ArgFault = MissingValue | NumberFormat

  /** The values of a `BenchmarkConfig`; `None` is Java's `null`. */
  datatype Settings = Settings(
    benchmarkType: Option<string>, s3Bucket: Option<string>,
    numFiles: int, numCommits: int, awsRegion: string, outputDir: string)

  /** A fresh `BenchmarkConfig`: no benchmark or bucket, the documented defaults otherwise. */
  const Defaults: Settings := Settings(None, None, 10000, 1000, "us-east-1", "./results")

  class BenchmarkConfig {
    var benchmarkType: Option<string>
    var s3Bucket: Option<string>
    var numFiles: int
    var numCommits: int
    var awsRegion: string
    var outputDir: string

    constructor()
      ensures Snapshot() == Defaults
    {
      benchmarkType := None;
      s3Bucket := None;
      numFiles := 10000;
      numCommits := 1000;
      awsRegion := "us-east-1";
      outputDir := "./results";
    }

    function Snapshot(): Settings
      reads this
    {
      Settings(benchmarkType, s3Bucket, numFiles, numCommits, awsRegion, outputDir)
    }
  }

  // ---------------------------------------------------------------------------
  // Integer.parseInt

  /** `Integer.parseInt(s)` over ASCII digits: an optional sign, at least one digit, and a value
      that fits in an `int`. */
  function ParseInt(s: string): (r: Result<int, ArgFault>)
    ensures r.Ok? ==> IsInt32(r.value)
  {
    if s == [] then Err(NumberFormat)
    else
      var body := if s[0] == '-' || s[0] == '+' then s[1..] else s;
      if body == [] || !AllDigits(body) then Err(NumberFormat)
      else
        var magnitude: int := DecimalValue(body);
        var v := if s[0] == '-' then 0 - magnitude else magnitude;
        if IsInt32(v) then Ok(v) else Err(NumberFormat)
  }

  /** `Integer.toString(n)`. */
  function IntText(n: int): string
  {
    if n < 0 then "-" + Decimal(-n) else Decimal(n)
  }

  /** Every `int` parses back from its own text, and nothing outside the `int` range parses. */
  lemma ParseIntRoundTrip(n: int)
    ensures ParseInt(IntText(n)) == if IsInt32(n) then Ok(n) else Err(NumberFormat)
  {
    if n < 0 {
      var t := Decimal(-n);
      DecimalRoundTrip(-n);
      ParseNegative(t);
      assert IntText(n) == "-" + t && -(DecimalValue(t) as int) == n;
    } else {
      var t := Decimal(n);
      DecimalRoundTrip(n);
      ParseUnsigned(t);
      assert IntText(n) == t && DecimalValue(t) == n;
    }
  }

  /** An unsigned numeral parses to its value when that value fits an `int`. */
  lemma ParseUnsigned(t: string)
    requires t != [] && AllDigits(t)
    ensures ParseInt(t) == if IsInt32(DecimalValue(t)) then Ok(DecimalValue(t)) else Err(NumberFormat)
  {
    assert IsDigit(t[0]);
  }

  /** A minus sign followed by a numeral parses to the negated value when that fits an `int`. */
  lemma ParseNegative(t: string)
    requires t != [] && AllDigits(t)
    ensures ParseInt("-" + t)
         == if IsInt32(-(DecimalValue(t) as int)) then Ok(-(DecimalValue(t) as int)) else Err(NumberFormat)
  {
    assert ("-" + t)[0] == '-' && ("-" + t)[1..] == t;
  }

  /** A number with no digits, such as a flag, is rejected. */
  lemma ParseIntNeedsDigits(s: string)
    requires |s| >= 1 && !IsDigit(s[0]) && s[0] != '-' && s[0] != '+'
    ensures ParseInt(s) == Err(NumberFormat)
  {
  }

  // ---------------------------------------------------------------------------
  // The argument scan

  /** How the scan ends: it reached `--help`, an exception escaped, or it ran out of arguments. */
  datatype ScanOutcome = Help | Fault(fault: ArgFault) | Done(settings: Settings)

  /** The `for`/`switch` over the arguments from the current one on: each recognised flag takes
      the next argument as its value whatever it looks like, `--help` stops the scan, anything
      else is skipped. */
  function Scan(args: seq<string>, s: Settings): ScanOutcome
    decreases |args|
  {
    if args == [] then Done(s)
    else
      var flag := args[0];
      if flag == "--help" then Help
      else if flag !in ValueFlags then Scan(args[1..], s)
      else if |args| < 2 then Fault(MissingValue)
      else
        var value := args[1];
        if flag == "--benchmark" then Scan(args[2..], s.(benchmarkType := Some(value)))
        else if flag == "--s3-bucket" then Scan(args[2..], s.(s3Bucket := Some(value)))
        else if flag == "--aws-region" then Scan(args[2..], s.(awsRegion := value))
        else if flag == "--output-dir" then Scan(args[2..], s.(outputDir := value))
        else match ParseInt(value)
          case Err(e) => Fault(e)
          case Ok(n) =>
            if flag == "--num-files" then Scan(args[2..], s.(numFiles := n))
            else Scan(args[2..], s.(numCommits := n))
  }

  const ValueFlags: set<string> :=
    {"--benchmark", "--s3-bucket", "--num-files", "--num-commits", "--aws-region", "--output-dir"}

  /** What `parseArgs` returns: the exception, `null` (`None`) for `--help` or a missing
      benchmark or bucket, or the filled-in configuration. */
  function ParseResult(args: seq<string>): Result<Option<Settings>, ArgFault>
  {
    match Scan(args, Defaults)
      case Fault(e) => Err(e)
      case Help => Ok(None)
      case Done(s) => Ok(if s.benchmarkType.None? || s.s3Bucket.None? then None else Some(s))
  }

  /** One round of the scan at position `i`. */
  lemma ScanStep(args: seq<string>, i: nat, s: Settings)
    requires i < |args|
    ensures Scan(args[i..], s) ==
      if args[i] == "--help" then Help
      else if args[i] !in ValueFlags then Scan(args[i + 1..], s)
      else if i + 1 >= |args| then Fault(MissingValue)
      else
        var value := args[i + 1];
        if args[i] == "--benchmark" then Scan(args[i + 2..], s.(benchmarkType := Some(value)))
        else if args[i] == "--s3-bucket" then Scan(args[i + 2..], s.(s3Bucket := Some(value)))
        else if args[i] == "--aws-region" then Scan(args[i + 2..], s.(awsRegion := value))
        else if args[i] == "--output-dir" then Scan(args[i + 2..], s.(outputDir := value))
        else match ParseInt(value)
          case Err(e) => Fault(e)
          case Ok(n) =>
            if args[i] == "--num-files" then Scan(args[i + 2..], s.(numFiles := n))
            else Scan(args[i + 2..], s.(numCommits := n))
  {
    assert args[i..][1..] == args[i + 1..];
    if i + 1 < |args| {
      assert args[i..][2..] == args[i + 2..];
    }
  }

  /** `parseArgs`: the loop that advances `i` past each flag and, with `++i`, past its value,
      updating the configuration as it goes. */
  method ParseArgs(args: seq<string>) returns (r: Result<Option<BenchmarkConfig>, ArgFault>)
    ensures r.Err? <==> ParseResult(args).Err?
    ensures r.Err? ==> r.error == ParseResult(args).error
    ensures r.Ok? ==> (r.value.Some? <==> ParseResult(args).value.Some?)
    ensures r.Ok? && r.value.Some? ==> fresh(r.value.value) && r.value.value.Snapshot() == ParseResult(args).value.value
  {
    var config := new BenchmarkConfig();
    var i := 0;
    assert args[0..] == args;
    while i < |args|
      invariant 0 <= i <= |args|
      invariant fresh(config)
      invariant Scan(args[i..], config.Snapshot()) == Scan(args, Defaults)
    {
      ScanStep(args, i, config.Snapshot());
      var arg := args[i];
      if arg == "--benchmark" {
        i := i + 1;
        if i >= |args| {
          return Err(MissingValue);
        }
        config.benchmarkType := Some(args[i]);
      } else if arg == "--s3-bucket" {
        i := i + 1;
        if i >= |args| {
          return Err(MissingValue);
        }
        config.s3Bucket := Some(args[i]);
      } else if arg == "--num-files" {
        i := i + 1;
        if i >= |args| {
          return Err(MissingValue);
        }
        var n := ParseInt(args[i]);
        if n.Err? {
          return Err(n.error);
        }
        config.numFiles := n.value;
      } else if arg == "--num-commits" {
        i := i + 1;
        if i >= |args| {
          return Err(MissingValue);
        }
        var n := ParseInt(args[i]);
        if n.Err? {
          return Err(n.error);
        }
        config.numCommits := n.value;
      } else if arg == "--aws-region" {
        i := i + 1;
        if i >= |args| {
          return Err(MissingValue);
        }
        config.awsRegion := args[i];
      } else if arg == "--output-dir" {
        i := i + 1;
        if i >= |args| {
          return Err(MissingValue);
        }
        config.outputDir := args[i];
      } else if arg == "--help" {
        return Ok(None);
      }
      i := i + 1;
    }
    if config.benchmarkType.None? || config.s3Bucket.None? {
      return Ok(None);
    }
    return Ok(Some(config));
  }

  // ---------------------------------------------------------------------------
  // Properties of the scan

  /** Scanning two argument lists one after the other is scanning their concatenation, as long
      as the first does not end on a flag that is still waiting for its value. */
  lemma {:induction false} ScanAppend(args: seq<string>, more: seq<string>, s: Settings)
    requires !Scan(args, s).Fault? || Scan(args, s).fault != MissingValue
    ensures Scan(args + more, s) == match Scan(args, s)
      case Done(t) => Scan(more, t)
      case other => other
    decreases |args|
  {
    if args == [] {
      assert args + more == more;
    } else {
      var flag := args[0];
      assert (args + more)[1..] == args[1..] + more;
      if flag != "--help" && flag in ValueFlags {
        assert (args + more)[2..] == args[2..] + more;
        var value := args[1];
        if flag == "--benchmark" {
          ScanAppend(args[2..], more, s.(benchmarkType := Some(value)));
        } else if flag == "--s3-bucket" {
          ScanAppend(args[2..], more, s.(s3Bucket := Some(value)));
        } else if flag == "--aws-region" {
          ScanAppend(args[2..], more, s.(awsRegion := value));
        } else if flag == "--output-dir" {
          ScanAppend(args[2..], more, s.(outputDir := value));
        } else if ParseInt(value).Ok? {
          if flag == "--num-files" {
            ScanAppend(args[2..], more, s.(numFiles := ParseInt(value).value));
          } else {
            ScanAppend(args[2..], more, s.(numCommits := ParseInt(value).value));
          }
        }
      } else if flag != "--help" {
        ScanAppend(args[1..], more, s);
      }
    }
  }

  /** With just a benchmark and a bucket, everything else keeps its default; the values are
      taken as given even when they look like flags. */
  lemma DefaultsApply(benchmark: string, bucket: string)
    ensures ParseResult(["--benchmark", benchmark, "--s3-bucket", bucket]) ==
      Ok(Some(Settings(Some(benchmark), Some(bucket), 10000, 1000, "us-east-1", "./results")))
  {
    var args := ["--benchmark", benchmark, "--s3-bucket", bucket];
    var rest := ["--s3-bucket", bucket];
    assert args[2..] == rest;
    assert rest[2..] == [];
    var s1 := Defaults.(benchmarkType := Some(benchmark));
    var s2 := s1.(s3Bucket := Some(bucket));
    assert Scan(rest, s1) == Scan([], s2) == Done(s2);
    assert Scan(args, Defaults) == Done(s2);
  }

  /** The last occurrence of a repeated flag wins. */
  lemma LastOccurrenceWins(args: seq<string>, benchmark: string, s: Settings)
    requires Scan(args, s).Done?
    ensures Scan(args + ["--benchmark", benchmark], s) ==
      Done(Scan(args, s).settings.(benchmarkType := Some(benchmark)))
  {
    ScanAppend(args, ["--benchmark", benchmark], s);
    assert ["--benchmark", benchmark][2..] == [];
  }

  /** Reaching `--help` ends the scan with `null`, whatever follows, malformed or not. */
  lemma HelpStopsScan(before: seq<string>, after: seq<string>)
    requires Scan(before, Defaults).Done?
    ensures ParseResult(before + ["--help"] + after) == Ok(None)
  {
    ScanAppend(before, ["--help"] + after, Defaults);
    assert before + ["--help"] + after == before + (["--help"] + after);
  }

  /** An unrecognised argument is skipped. */
  lemma UnknownSkipped(arg: string, rest: seq<string>, s: Settings)
    requires arg != "--help" && arg !in ValueFlags
    ensures Scan([arg] + rest, s) == Scan(rest, s)
  {
    assert ([arg] + rest)[1..] == rest;
  }

  /** A value-taking flag in last position escapes as `ArrayIndexOutOfBoundsException`. */
  lemma TrailingFlagFails(before: seq<string>, flag: string)
    requires Scan(before, Defaults).Done? && flag in ValueFlags
    ensures ParseResult(before + [flag]) == Err(MissingValue)
  {
    ScanAppend(before, [flag], Defaults);
  }

  /** A count that does not parse escapes as `NumberFormatException`. */
  lemma BadCountFails(before: seq<string>, value: string, after: seq<string>)
    requires Scan(before, Defaults).Done? && ParseInt(value).Err?
    ensures ParseResult(before + ["--num-files", value] + after) == Err(NumberFormat)
    ensures ParseResult(before + ["--num-commits", value] + after) == Err(NumberFormat)
  {
    ScanAppend(before, ["--num-files", value] + after, Defaults);
    assert before + ["--num-files", value] + after == before + (["--num-files", value] + after);
    ScanAppend(before, ["--num-commits", value] + after, Defaults);
    assert before + ["--num-commits", value] + after == before + (["--num-commits", value] + after);
  }

  /** Without a benchmark or without a bucket, `parseArgs` returns `null`. */
  lemma RequiredFlags(args: seq<string>)
    requires Scan(args, Defaults).Done?
    ensures ParseResult(args).Ok?
    ensures ParseResult(args).value.None? <==>
      Scan(args, Defaults).settings.benchmarkType.None? || Scan(args, Defaults).settings.s3Bucket.None?
  {
  }

  // ---------------------------------------------------------------------------
  // Dispatch

  datatype Benchmark = DeleteStorm | DvResolution | WriteOverhead

  /** The name `--benchmark` must give for each benchmark. */
  function BenchmarkName(b: Benchmark): string
  {
    match b
      case DeleteStorm => "DeleteStorm"
      case DvResolution => "DVResolution"
      case WriteOverhead => "WriteOverhead"
  }

  /** The `switch` in `main`: the benchmark with that exact (case-sensitive) name, or none. */
  function Dispatch(benchmarkType: string): (b: Option<Benchmark>)
    ensures b.Some? ==> BenchmarkName(b.value) == benchmarkType
  {
    if benchmarkType == "DeleteStorm" then Some(DeleteStorm)
    else if benchmarkType == "DVResolution" then Some(DvResolution)
    else if benchmarkType == "WriteOverhead" then Some(WriteOverhead)
    else None
  }

  /** Each benchmark is selected by its own name and by nothing else. */
  lemma DispatchRoundTrip(b: Benchmark, name: string)
    ensures Dispatch(BenchmarkName(b)) == Some(b)
    ensures Dispatch(name).Some? <==> exists c :: BenchmarkName(c) == name
  {
    if Dispatch(name).None? {
      forall c ensures BenchmarkName(c) != name {
      }
    }
  }

  /** How `main` ends, given whether the AWS credentials check passes. */
  datatype Outcome =
    | Crash(fault: ArgFault)
    | Usage
    | NoCredentials
    | UnknownBenchmark(name: string)
    | RunBenchmark(benchmark: Benchmark, settings: Settings)

  function MainOutcome(args: seq<string>, credentialsValid: bool): (o: Outcome)
    ensures o.RunBenchmark? ==> ParseResult(args) == Ok(Some(o.settings)) && credentialsValid
  {
    match ParseResult(args)
      case Err(e) => Crash(e)
      case Ok(None) => Usage
      case Ok(Some(s)) =>
        if !credentialsValid then NoCredentials
        else match Dispatch(s.benchmarkType.value)
          case None => UnknownBenchmark(s.benchmarkType.value)
          case Some(b) => RunBenchmark(b, s)
  }

  /** A well-formed command line for a known benchmark runs it with the parsed settings. */
  lemma MainRuns(b: Benchmark, bucket: string)
    ensures MainOutcome(["--benchmark", BenchmarkName(b), "--s3-bucket", bucket], true) ==
      RunBenchmark(b, Settings(Some(BenchmarkName(b)), Some(bucket), 10000, 1000, "us-east-1", "./results"))
  {
    DefaultsApply(BenchmarkName(b), bucket);
    DispatchRoundTrip(b, BenchmarkName(b));
  }
}
