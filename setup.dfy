/** The run-wide settings read from the command line (`BenchmarkSetup` in
    include/benchmark/detail/benchmark_setup.h, and its older copy in
    include/detail/benchmark_setup.h): the output style named after
    `output`, and the `verbose` and `skipWarmup` flags. The constructors
    only compute a record once, so they are functions here. */
module Setup {
  import opened Numeric
  import opened Arguments

  datatype OutputStyle = Table | OneLine | Full | Nothing

  datatype BenchmarkSetup = BenchmarkSetup(outputStyle: OutputStyle, verbose: bool, skipWarmup: bool)

  /** The default constructor's settings. */
  const Default := BenchmarkSetup(OneLine, false, false)

  /** The style an `output` value names; the names are matched exactly,
      case included. */
  function StyleNamed(value: string): Option<OutputStyle>
  {
    if value == "full" then Some(Full)
    else if value == "oneline" then Some(OneLine)
    else if value == "table" then Some(Table)
    else if value == "nothing" then Some(Nothing)
    else None
  }

  /** The command-line name of each style. */
  function StyleName(style: OutputStyle): string
  {
    match style
    case Table => "table"
    case OneLine => "oneline"
    case Full => "full"
    case Nothing => "nothing"
  }

  /** The value given for `output`: the argument after its first
      occurrence, empty when there is none. */
  function OutputValue(argc: int, argv: seq<string>): string
    requires argc <= |argv|
  {
    Parsed(argc, argv).After("output", None)
  }

  /** `BenchmarkSetup(argc, argv)`: the named style when the value names
      one, the default style otherwise, and the two flags present or not. */
  function FromCommandLine(argc: int, argv: seq<string>): (s: BenchmarkSetup)
    requires argc <= |argv|
    ensures s.verbose <==> Parsed(argc, argv).Contains("verbose", None)
    ensures s.skipWarmup <==> Parsed(argc, argv).Contains("skipWarmup", None)
    ensures s.outputStyle != Default.outputStyle ==> StyleName(s.outputStyle) == OutputValue(argc, argv)
    ensures forall st: OutputStyle :: StyleName(st) == OutputValue(argc, argv) ==> s.outputStyle == st
  {
    var value := OutputValue(argc, argv);
    var style := match StyleNamed(value) case Some(st) => st case None => Default.outputStyle;
    Default.(outputStyle := style,
             verbose := Parsed(argc, argv).Contains("verbose", None),
             skipWarmup := Parsed(argc, argv).Contains("skipWarmup", None))
  }

  /** Whether the constructor writes the diagnostic about an unexpected
      `output` value: whenever the value names no style, a missing `output`
      (an empty value) included. Both generations complain alike. */
  function Complains(argc: int, argv: seq<string>): (c: bool)
    requires argc <= |argv|
    ensures c <==> forall style: OutputStyle :: StyleName(style) != OutputValue(argc, argv)
  {
    assert forall style :: StyleNamed(StyleName(style)) == Some(style);
    StyleNamed(OutputValue(argc, argv)).None?
  }

  /** The older constructor as written: the value after `output` goes to a
      local string that hides the field, so the field keeps the default. */
  function OlderFromCommandLineAsWritten(argc: int, argv: seq<string>): (s: BenchmarkSetup)
    requires argc <= |argv|
    ensures s.outputStyle == Default.outputStyle
    ensures s.verbose == FromCommandLine(argc, argv).verbose
    ensures s.skipWarmup == FromCommandLine(argc, argv).skipWarmup
  {
    Default.(verbose := Parsed(argc, argv).Contains("verbose", None),
             skipWarmup := Parsed(argc, argv).Contains("skipWarmup", None))
  }

  /** Names and styles are inverse to each other. */
  lemma {:induction false} StyleNamesRoundTrip(style: OutputStyle, value: string)
    ensures StyleNamed(StyleName(style)) == Some(style)
    ensures StyleNamed(value) == Some(style) <==> value == StyleName(style)
  {
  }

  /** The diagnostic and the chosen style agree: with the diagnostic the
      style stays the default, and without it the style is the one whose
      name is the `output` value. */
  lemma DiagnosticMeansDefault(argc: int, argv: seq<string>)
    requires argc <= |argv|
    ensures Complains(argc, argv) ==> FromCommandLine(argc, argv).outputStyle == Default.outputStyle
    ensures !Complains(argc, argv) ==> StyleName(FromCommandLine(argc, argv).outputStyle) == OutputValue(argc, argv)
  {
  }

  /** `output` as the first argument: its value is the second one,
      whatever follows. */
  lemma {:induction false} OutputFirst(argc: int, argv: seq<string>)
    requires 3 <= argc <= |argv|
    requires argv[1] != "" && Strip(argv[1]) == "output" && argv[2] != ""
    ensures OutputValue(argc, argv) == Strip(argv[2])
  {
    assert argv[1..argc] == argv[1..3] + argv[3..argc];
    KeptAppend(argv[1..3], argv[3..argc]);
    KeptAllNonEmpty(argv[1..3]);
    var args := Parsed(argc, argv).args;
    assert args[0] == "output" && args[1] == Strip(argv[2]);
    assert FirstMatch(args, "output", None) == 0;
  }

  /** Naming any style after `--output` (or `-output`) selects it. */
  lemma OutputRoundTrip(style: OutputStyle, dashes: string)
    requires dashes == "-" || dashes == "--"
    ensures FromCommandLine(3, ["bench", dashes + "output", StyleName(style)]).outputStyle == style
    ensures !Complains(3, ["bench", dashes + "output", StyleName(style)])
  {
    var argv := ["bench", dashes + "output", StyleName(style)];
    OutputFirst(3, argv);
    assert Strip(StyleName(style)) == StyleName(style);
    StyleNamesRoundTrip(style, StyleName(style));
    DiagnosticMeansDefault(3, argv);
  }

  /** Only the first `output` is consulted. */
  lemma FirstOutputWins()
    ensures FromCommandLine(5, ["bench", "--output", "table", "--output", "full"]).outputStyle == Table
  {
    var argv := ["bench", "--output", "table", "--output", "full"];
    OutputFirst(5, argv);
    assert Strip("table") == "table";
    DiagnosticMeansDefault(5, argv);
    StyleNamesRoundTrip(Table, "table");
  }

  /** Style names are matched case included: `FULL` names no style, so
      it leaves the default style and draws the diagnostic. */
  lemma CaseSensitive()
    ensures FromCommandLine(3, ["bench", "--output", "FULL"]).outputStyle == OneLine
    ensures Complains(3, ["bench", "--output", "FULL"])
  {
    var argv := ["bench", "--output", "FULL"];
    OutputFirst(3, argv);
    assert Strip("FULL") == "FULL";
    DiagnosticMeansDefault(3, argv);
    assert StyleNamed("FULL") == None;
  }

  /** Without any `output` the value is empty: the default style and the
      diagnostic. */
  lemma MissingOutput(argv: seq<string>)
    requires 1 <= |argv|
    ensures Complains(1, argv) && FromCommandLine(1, argv) == Default
  {
    assert argv[1..1] == [];
    assert OutputValue(1, argv) == "";
    DiagnosticMeansDefault(1, argv);
  }

  /** The older constructor ignores the requested style: with `--output
      full` the newer one selects Full and the older one stays at OneLine. */
  lemma OlderIgnoresOutput()
    ensures FromCommandLine(3, ["bench", "--output", "full"]).outputStyle == Full
    ensures OlderFromCommandLineAsWritten(3, ["bench", "--output", "full"]).outputStyle == OneLine
  {
    OutputRoundTrip(Full, "--");
    assert "--" + "output" == "--output";
  }
}
