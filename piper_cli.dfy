/**
 * libpiper/piper.cpp: the smaller command-line front end. It knows `-m`,
 * `-f`, `--output-raw` and `--` (only in these spellings, although its usage
 * text also lists `--model` and `--file`), skips every other argument, takes
 * the single argument after `--` as the text and otherwise reads standard
 * input. The result is what `main` hands to `piper_create` and the sink.
 */
module PiperCli {
  import opened Common
  import opened Strings
  import opened CliIo

  /** `output_file` before any `-f`. */
  const DEFAULT_OUTPUT_FILE := "output.raw"

  /** The variables `main` sets while it reads its arguments. */
  datatype PiperOptions = PiperOptions(
    modelName: string,
    outputFile: string,
    outputToStdout: bool,
    inputText: string)

  const INITIAL := PiperOptions("", DEFAULT_OUTPUT_FILE, false, "")

  /** How the argument loop reads `argv`. */
  datatype PiperToken =
    | Help(flag: string)   // -h, --help
    | Model(value: string) // -m and the argument after it
    | File(value: string)  // -f and the argument after it
    | OutputRaw            // --output-raw
    | Text(value: string)  // -- and the one argument after it
    | Skipped(arg: string) // anything else, including -m, -f or -- as the last argument

  /** The tokens of `argv[i..]`; the loop stops reading at a help option or at `--` with text. */
  function Tokens(argv: seq<string>, i: nat): (ts: seq<PiperToken>)
    ensures i <= |argv| ==> |ts| <= |argv| - i
    ensures forall k :: 0 <= k < |ts| - 1 ==> !ts[k].Help? && !ts[k].Text?
    decreases |argv| - i
  {
    if i >= |argv| then []
    else
      var arg := argv[i];
      if arg == "-h" || arg == "--help" then [Help(arg)]
      else if arg == "-m" && i + 1 < |argv| then [Model(argv[i + 1])] + Tokens(argv, i + 2)
      else if arg == "-f" && i + 1 < |argv| then [File(argv[i + 1])] + Tokens(argv, i + 2)
      else if arg == "--output-raw" then [OutputRaw] + Tokens(argv, i + 1)
      else if arg == "--" && i + 1 < |argv| then [Text(argv[i + 1])]
      else [Skipped(arg)] + Tokens(argv, i + 1)
  }

  /** The arguments a token stands for. */
  function Words(t: PiperToken): seq<string>
  {
    match t
    case Help(flag) => [flag]
    case Model(value) => ["-m", value]
    case File(value) => ["-f", value]
    case OutputRaw => ["--output-raw"]
    case Text(value) => ["--", value]
    case Skipped(arg) => [arg]
  }

  function AllWords(ts: seq<PiperToken>): seq<string>
    decreases |ts|
  {
    if |ts| == 0 then [] else Words(ts[0]) + AllWords(ts[1..])
  }

  /**
   * `ws` reads `rest` from its start, each argument once and in order, and
   * stops early only after a help option or after the text that follows `--`.
   */
  predicate Covers(ws: seq<string>, rest: seq<string>)
  {
    |ws| <= |rest| && ws == rest[..|ws|] && (|ws| < |rest| ==> "-h" in ws || "--help" in ws || "--" in ws)
  }

  lemma CoversPrepend(pre: seq<string>, ws: seq<string>, rest: seq<string>)
    requires Covers(ws, rest)
    ensures Covers(pre + ws, pre + rest)
  {
    assert (pre + rest)[..|pre + ws|] == pre + rest[..|ws|];
  }

  lemma AllWordsCons(t: PiperToken, ts: seq<PiperToken>)
    ensures AllWords([t] + ts) == Words(t) + AllWords(ts)
  {
    assert ([t] + ts)[1..] == ts;
  }

  /** A token reading `argv[i..j]` ahead of words that cover `argv[j..]` covers `argv[i..]`. */
  lemma CoverStep(argv: seq<string>, i: nat, j: nat, t: PiperToken, ts: seq<PiperToken>)
    requires i < j <= |argv| && Words(t) == argv[i..j]
    requires Covers(AllWords(ts), argv[j..])
    ensures Covers(AllWords([t] + ts), argv[i..])
  {
    AllWordsCons(t, ts);
    CoversPrepend(argv[i..j], AllWords(ts), argv[j..]);
    SliceSplit(argv, i, j);
  }

  /** Every argument from `i` on is read once, in order, until help or the text after `--`. */
  lemma {:induction false} TokensCoverArguments(argv: seq<string>, i: nat)
    ensures Covers(AllWords(Tokens(argv, i)), if i <= |argv| then argv[i..] else [])
    decreases |argv| - i
  {
    if i < |argv| {
      var arg := argv[i];
      if arg == "-h" || arg == "--help" {
        AllWordsCons(Help(arg), []);
        SliceOfSuffix(argv, i, 1);
        SliceOne(argv, i);
      } else if arg == "--" && i + 1 < |argv| {
        AllWordsCons(Text(argv[i + 1]), []);
        SliceOfSuffix(argv, i, 2);
        SliceTwo(argv, i);
      } else if (arg == "-m" || arg == "-f") && i + 1 < |argv| {
        CoverPair(argv, i);
      } else {
        CoverSingle(argv, i);
      }
    }
  }

  /** `-m` and `-f` with the argument after them. */
  lemma {:induction false} CoverPair(argv: seq<string>, i: nat)
    requires i + 1 < |argv| && (argv[i] == "-m" || argv[i] == "-f")
    ensures Covers(AllWords(Tokens(argv, i)), argv[i..])
    decreases |argv| - i, 0
  {
    var t := if argv[i] == "-m" then Model(argv[i + 1]) else File(argv[i + 1]);
    assert Tokens(argv, i) == [t] + Tokens(argv, i + 2);
    SliceTwo(argv, i);
    TokensCoverArguments(argv, i + 2);
    CoverStep(argv, i, i + 2, t, Tokens(argv, i + 2));
  }

  /** `--output-raw` and a skipped argument. */
  lemma {:induction false} CoverSingle(argv: seq<string>, i: nat)
    requires i < |argv| && argv[i] != "-h" && argv[i] != "--help"
    requires argv[i] in {"-m", "-f", "--"} ==> i + 1 == |argv|
    ensures Covers(AllWords(Tokens(argv, i)), argv[i..])
    decreases |argv| - i, 0
  {
    var t := if argv[i] == "--output-raw" then OutputRaw else Skipped(argv[i]);
    assert Tokens(argv, i) == [t] + Tokens(argv, i + 1);
    SliceOne(argv, i);
    TokensCoverArguments(argv, i + 1);
    CoverStep(argv, i, i + 1, t, Tokens(argv, i + 1));
  }

  /** The effect of one token on the variables (help ends the loop instead). */
  function Step(o: PiperOptions, t: PiperToken): (o': PiperOptions)
    ensures t.Help? || t.Skipped? ==> o' == o
    ensures !t.Model? ==> o'.modelName == o.modelName
    ensures !t.File? ==> o'.outputFile == o.outputFile
    ensures !t.OutputRaw? ==> o'.outputToStdout == o.outputToStdout
    ensures !t.Text? ==> o'.inputText == o.inputText
  {
    match t
    case Help(_) => o
    case Model(value) => o.(modelName := value)
    case File(value) => o.(outputFile := value)
    case OutputRaw => o.(outputToStdout := true)
    case Text(value) => o.(inputText := value)
    case Skipped(_) => o
  }

  /** The argument loop's outcome: help was asked for, or the variables it leaves. */
  datatype ParsedArgs = ShowHelp | Parsed(options: PiperOptions)

  function Apply(o: PiperOptions, ts: seq<PiperToken>): ParsedArgs
    decreases |ts|
  {
    if |ts| == 0 then Parsed(o)
    else if ts[0].Help? then ShowHelp
    else Apply(Step(o, ts[0]), ts[1..])
  }

  lemma ApplyCons(o: PiperOptions, t: PiperToken, ts: seq<PiperToken>)
    ensures Apply(o, [t] + ts) == if t.Help? then ShowHelp else Apply(Step(o, t), ts)
  {
    assert ([t] + ts)[1..] == ts;
  }

  /** The fold shows help exactly when one of the tokens is a help option. */
  lemma {:induction false} ApplyHelp(o: PiperOptions, ts: seq<PiperToken>)
    ensures Apply(o, ts) == ShowHelp <==> exists k :: 0 <= k < |ts| && ts[k].Help?
    decreases |ts|
  {
    if |ts| > 0 && !ts[0].Help? {
      ApplyHelp(Step(o, ts[0]), ts[1..]);
      assert forall k :: 1 <= k < |ts| ==> ts[k] == ts[1..][k - 1];
    }
  }

  /** Help is shown exactly when the loop ends on a help option, whatever came before it. */
  lemma PiperArgsHelp(argv: seq<string>)
    ensures var ts := Tokens(argv, 1); PiperArgs(argv) == ShowHelp <==> |ts| > 0 && ts[|ts| - 1].Help?
  {
    ApplyHelp(INITIAL, Tokens(argv, 1));
  }

  /** What the argument loop of `main` makes of `argv`. */
  function PiperArgs(argv: seq<string>): ParsedArgs
  {
    Apply(INITIAL, Tokens(argv, 1))
  }

  /** The argument loop of `main`. */
  method ParsePiperArgs(argv: seq<string>) returns (r: ParsedArgs)
    ensures r == PiperArgs(argv)
  {
    var o := INITIAL;
    var i := 1;
    while i < |argv|
      invariant 1 <= i
      invariant Apply(o, Tokens(argv, i)) == PiperArgs(argv)
      decreases |argv| - i
    {
      var arg := argv[i];
      if arg == "-h" || arg == "--help" {
        return ShowHelp;
      } else if arg == "-m" && i + 1 < |argv| {
        i := i + 1;
        o := o.(modelName := argv[i]);
      } else if arg == "-f" && i + 1 < |argv| {
        i := i + 1;
        o := o.(outputFile := argv[i]);
      } else if arg == "--output-raw" {
        o := o.(outputToStdout := true);
      } else if arg == "--" && i + 1 < |argv| {
        i := i + 1;
        o := o.(inputText := argv[i]);
        return Parsed(o);
      }
      i := i + 1;
    }
    return Parsed(o);
  }

  // ---------------------------------------------------------------------------
  // main

  /** What `main` reads from its surroundings. */
  datatype Host = Host(
    espeakDataPath: Option<string>,  // getenv("ESPEAK_DATA_PATH")
    piperVoicePath: Option<string>,  // getenv("PIPER_VOICE_PATH")
    stdin: string)

  /** What `main` does with `argv` in `host`, up to `piper_create`. */
  function PiperPlan(argv: seq<string>, host: Host): (run: Run)
    ensures run == Exit(0, HelpShown) <==> PiperArgs(argv) == ShowHelp
    ensures run.Exit? ==> run.code == 0 || (run.code == 1 && run.reason == MissingModel)
    ensures run.Synthesize? ==> run.jsonPath == run.onnxPath + ".json" && (run.sink == Stdout || run.sink.OutputFile?)
  {
    match PiperArgs(argv)
    case ShowHelp => Exit(0, HelpShown)
    case Parsed(o) =>
      if o.modelName == "" then Exit(1, MissingModel)
      else
        var text := if o.inputText == "" then StdinText(host.stdin) else o.inputText;
        var dir := ModelDir(host.piperVoicePath);
        ModelPaths(dir, o.modelName, "");
        Synthesize(OnnxPath(dir, o.modelName), JsonPath(dir, o.modelName),
                   EnvOr(host.espeakDataPath, DEFAULT_ESPEAK_DATA), text,
                   if o.outputToStdout then Stdout else OutputFile(o.outputFile))
  }

  /** `main` up to `piper_create`: parse, check the model, read the text, build the paths. */
  method PiperMain(argv: seq<string>, host: Host) returns (run: Run)
    ensures run == PiperPlan(argv, host)
  {
    var espeakPath := EnvOr(host.espeakDataPath, DEFAULT_ESPEAK_DATA);
    var parsed := ParsePiperArgs(argv);
    if parsed.ShowHelp? {
      return Exit(0, HelpShown);
    }
    var o := parsed.options;
    if o.modelName == "" {
      return Exit(1, MissingModel);
    }
    var text := o.inputText;
    if text == "" {
      text := ReadStdin(host.stdin);
    }
    var dir := "./";
    if host.piperVoicePath.Some? {
      dir := host.piperVoicePath.value + "/";
    }
    var onnxPath := dir + o.modelName + ".onnx";
    var jsonPath := dir + o.modelName + ".onnx.json";
    var sink := if o.outputToStdout then Stdout else OutputFile(o.outputFile);
    return Synthesize(onnxPath, jsonPath, espeakPath, text, sink);
  }

  // ---------------------------------------------------------------------------
  // Properties

  /**
   * Synthesis needs a model name; the audio always goes somewhere: standard
   * output after `--output-raw`, the output file (by default `output.raw`)
   * otherwise; the text is the argument after `--`, or standard input when
   * that is missing or empty.
   */
  lemma PlanShape(argv: seq<string>, host: Host)
    requires PiperPlan(argv, host).Synthesize?
    ensures var o := PiperArgs(argv).options; var r := PiperPlan(argv, host);
      && o.modelName != ""
      && r.jsonPath == r.onnxPath + ".json"
      && (r.sink == Stdout <==> o.outputToStdout)
      && (r.sink != Stdout ==> r.sink == OutputFile(o.outputFile))
      && (o.inputText == "" ==> r.text == StdinText(host.stdin))
      && (o.inputText != "" ==> r.text == o.inputText)
  {
    var o := PiperArgs(argv).options;
    ModelPaths(ModelDir(host.piperVoicePath), o.modelName, "");
  }

  /** Without `-f`, or with `-f` only as the last argument, where it is skipped, the file is `output.raw`. */
  lemma {:induction false} OutputFileDefault(argv: seq<string>, i: nat, o: PiperOptions)
    requires forall k :: i <= k < |argv| - 1 ==> argv[k] != "-f"
    requires Apply(o, Tokens(argv, i)).Parsed?
    ensures Apply(o, Tokens(argv, i)).options.outputFile == o.outputFile
    decreases |argv| - i
  {
    if i < |argv| {
      var arg := argv[i];
      if arg == "-m" && i + 1 < |argv| {
        ApplyCons(o, Model(argv[i + 1]), Tokens(argv, i + 2));
        OutputFileDefault(argv, i + 2, o.(modelName := argv[i + 1]));
      } else if arg == "--" && i + 1 < |argv| {
        ApplyCons(o, Text(argv[i + 1]), []);
      } else if arg == "--output-raw" {
        ApplyCons(o, OutputRaw, Tokens(argv, i + 1));
        OutputFileDefault(argv, i + 1, o.(outputToStdout := true));
      } else if arg != "-h" && arg != "--help" {
        ApplyCons(o, Skipped(arg), Tokens(argv, i + 1));
        OutputFileDefault(argv, i + 1, o);
      }
    }
  }

  /**
   * The long spellings the usage text advertises are skipped: with
   * `--model NAME` no model is set and `main` exits with 1; so does a `-m`
   * with nothing after it.
   */
  lemma LongModelOptionSkipped(name: string, host: Host)
    requires name != "-h" && name != "--help"
    ensures PiperPlan(["piper", "--model", name], host) == Exit(1, MissingModel)
    ensures PiperPlan(["piper", "-m"], host) == Exit(1, MissingModel)
  {
    assert Tokens(["piper", "-m"], 1) == [Skipped("-m")] + [];
    ApplyCons(INITIAL, Skipped("-m"), []);
    var argv := ["piper", "--model", name];
    assert Tokens(argv, 3) == [];
    var t := if name == "--output-raw" then OutputRaw else Skipped(name);
    assert Tokens(argv, 2) == [t] + [];
    assert Tokens(argv, 1) == [Skipped("--model")] + ([t] + []);
    ApplyCons(INITIAL, Skipped("--model"), [t] + []);
    ApplyCons(INITIAL, t, []);
  }

  /** The options the argument loop recognises (`-m`, `-f` and `--` only with an argument after them). */
  predicate Recognised(argv: seq<string>, i: nat)
    requires i < |argv|
  {
    var arg := argv[i];
    arg in {"-h", "--help", "--output-raw"} || (arg in {"-m", "-f", "--"} && i + 1 < |argv|)
  }

  /** Any other argument is skipped and reading goes on with the next one, as if it were not there. */
  lemma SkipUnknown(argv: seq<string>, i: nat, o: PiperOptions)
    requires i < |argv| && !Recognised(argv, i)
    ensures Apply(o, Tokens(argv, i)) == Apply(o, Tokens(argv, i + 1))
    ensures Apply(o, Tokens(argv, i)) == Apply(o, Tokens(argv[..i] + argv[i + 1..], i))
  {
    TokensAtSkipped(argv, i);
    ApplyCons(o, Skipped(argv[i]), Tokens(argv, i + 1));
    RemoveAt(argv, i);
    TokensShift(argv[..i] + argv[i + 1..], argv, i, i + 1);
  }

  lemma TokensAtSkipped(argv: seq<string>, i: nat)
    requires i < |argv| && !Recognised(argv, i)
    ensures Tokens(argv, i) == [Skipped(argv[i])] + Tokens(argv, i + 1)
  {
  }

  /** Tokens depend only on the arguments from the starting point on. */
  lemma {:induction false} TokensShift(a: seq<string>, b: seq<string>, i: nat, j: nat)
    requires i <= |a| && j <= |b| && a[i..] == b[j..]
    ensures Tokens(a, i) == Tokens(b, j)
    decreases |a| - i
  {
    if i < |a| {
      assert a[i] == a[i..][0] == b[j..][0] == b[j];
      assert |a| - i == |b| - j;
      if i + 1 < |a| {
        assert a[i + 1] == a[i..][1] == b[j..][1] == b[j + 1];
      }
      if i + 2 <= |a| {
        assert a[i + 2..] == a[i..][2..] == b[j..][2..] == b[j + 2..];
        TokensShift(a, b, i + 2, j + 2);
      }
      assert a[i + 1..] == a[i..][1..] == b[j..][1..] == b[j + 1..];
      TokensShift(a, b, i + 1, j + 1);
    }
  }

  /**
   * `--output-raw` alone selects standard output; the `-` the usage text
   * puts after it is an argument of its own, and skipped.
   */
  lemma DashAfterOutputRawSkipped(m: string)
    ensures PiperArgs(["piper", "-m", m, "--output-raw", "-"]) == Parsed(INITIAL.(modelName := m, outputToStdout := true))
    ensures PiperArgs(["piper", "-m", m, "--output-raw"]) == Parsed(INITIAL.(modelName := m, outputToStdout := true))
  {
    var o1 := INITIAL.(modelName := m);
    var o2 := o1.(outputToStdout := true);
    var argv := ["piper", "-m", m, "--output-raw", "-"];
    assert Tokens(argv, 5) == [];
    assert Tokens(argv, 4) == [Skipped("-")] + [];
    assert Tokens(argv, 3) == [OutputRaw] + ([Skipped("-")] + []);
    assert Tokens(argv, 1) == [Model(m)] + ([OutputRaw] + ([Skipped("-")] + []));
    ApplyCons(INITIAL, Model(m), [OutputRaw] + ([Skipped("-")] + []));
    ApplyCons(o1, OutputRaw, [Skipped("-")] + []);
    ApplyCons(o2, Skipped("-"), []);
    var argv2 := ["piper", "-m", m, "--output-raw"];
    assert Tokens(argv2, 4) == [];
    assert Tokens(argv2, 3) == [OutputRaw] + [];
    assert Tokens(argv2, 1) == [Model(m)] + ([OutputRaw] + []);
    ApplyCons(INITIAL, Model(m), [OutputRaw] + []);
    ApplyCons(o1, OutputRaw, []);
  }

  /**
   * Only the one argument after `--` is the text: `-- hello world` speaks
   * `hello` and never looks at `world`.
   */
  lemma OneArgumentAfterDoubleDash(m: string, first: string, rest: seq<string>)
    ensures PiperArgs(["piper", "-m", m, "--", first] + rest) == Parsed(INITIAL.(modelName := m, inputText := first))
  {
    var argv := ["piper", "-m", m, "--", first] + rest;
    assert argv[1] == "-m" && argv[2] == m && argv[3] == "--" && argv[4] == first;
    TokensAtDoubleDash(argv, 3);
    TokensAtModel(argv, 1);
    ApplyCons(INITIAL, Model(m), [Text(first)]);
    ApplyCons(INITIAL.(modelName := m), Text(first), []);
  }

  lemma TokensAtDoubleDash(argv: seq<string>, i: nat)
    requires i + 1 < |argv| && argv[i] == "--"
    ensures Tokens(argv, i) == [Text(argv[i + 1])]
  {
  }

  lemma TokensAtModel(argv: seq<string>, i: nat)
    requires i + 1 < |argv| && argv[i] == "-m"
    ensures Tokens(argv, i) == [Model(argv[i + 1])] + Tokens(argv, i + 2)
  {
  }

  /** An empty text after `--`, or `--` as the last argument, leaves the text to standard input. */
  lemma EmptyTextReadsStdin(m: string, host: Host)
    requires m != ""
    ensures var r := PiperPlan(["piper", "-m", m, "--", ""], host); r.Synthesize? && r.text == StdinText(host.stdin)
    ensures var r := PiperPlan(["piper", "-m", m, "--"], host); r.Synthesize? && r.text == StdinText(host.stdin)
  {
    OneArgumentAfterDoubleDash(m, "", []);
    assert ["piper", "-m", m, "--", ""] + [] == ["piper", "-m", m, "--", ""];
    var argv := ["piper", "-m", m, "--"];
    assert Tokens(argv, 4) == [];
    assert Tokens(argv, 3) == [Skipped("--")] + [];
    assert Tokens(argv, 1) == [Model(m)] + ([Skipped("--")] + []);
    ApplyCons(INITIAL, Model(m), [Skipped("--")] + []);
    ApplyCons(INITIAL.(modelName := m), Skipped("--"), []);
  }
}
