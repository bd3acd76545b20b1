/**
 * libpiper/say.cpp: the command-line front end that reads its options, finds
 * the text (an input file, the words after `--` or after the first
 * unrecognised argument, or standard input), builds the model paths and
 * chooses where the audio goes. Synthesis itself is not modelled: the result
 * is what `main` hands to `piper_create` and the audio sink it opens.
 */
module SayCli {
  import opened Common
  import opened Strings
  import opened CliIo

  /** The file `-f` writes to when no name follows it. */
  const DEFAULT_OUTPUT_FILE := "output.raw"

  /** The variables `main` sets while it reads its arguments. */
  datatype SayOptions = SayOptions(
    modelName: string,
    outputFile: string,
    inputFile: string,
    inputText: string,
    useFileOutput: bool,
    outputToStdout: bool,
    playAudio: bool)

  const INITIAL := SayOptions("", "", "", "", false, false, false)

  /**
   * How the argument loop reads `argv`: one token per option with the value
   * it consumes, and a final token for the text.
   */
  datatype SayToken =
    | Help(flag: string)                          // -h, --help
    | Model(flag: string, value: Option<string>)  // -m, --model: the next argument, if any
    | Input(flag: string, value: Option<string>)  // -i, --input: the next argument, if any
    | File(flag: string, value: Option<string>)   // -f, --file: the next argument unless it starts with '-'
    | OutputRaw(dash: bool)                       // --output-raw, and the "-" after it when there is one
    | Play(flag: string)                          // -p, --play
    | EndOfOptions(rest: seq<string>)             // -- and everything after it
    | Text(words: seq<string>)                    // the first unrecognised argument and everything after it

  /** `argv[i][0] == '-'`; an empty C string starts with its terminator, not a dash. */
  predicate StartsWithDash(arg: string)
  {
    |arg| > 0 && arg[0] == '-'
  }

  /**
   * The token that starts at `argv[i]`, and the index of the first argument
   * after the ones it reads: `-m`, `-i`, `-f` and `--output-raw` read the
   * next argument when it suits them, and `--` and text read everything left.
   */
  function NextToken(argv: seq<string>, i: nat): (r: (SayToken, nat))
    requires i < |argv|
    ensures i < r.1 <= |argv|
    ensures r.0.EndOfOptions? || r.0.Text? ==> r.1 == |argv|
    ensures r.0.Help? <==> argv[i] == "-h" || argv[i] == "--help"
  {
    var arg := argv[i];
    if arg == "-h" || arg == "--help" then (Help(arg), i + 1)
    else if arg == "-m" || arg == "--model" then
      if i + 1 < |argv| then (Model(arg, Some(argv[i + 1])), i + 2) else (Model(arg, None), i + 1)
    else if arg == "-i" || arg == "--input" then
      if i + 1 < |argv| then (Input(arg, Some(argv[i + 1])), i + 2) else (Input(arg, None), i + 1)
    else if arg == "-f" || arg == "--file" then
      if i + 1 < |argv| && !StartsWithDash(argv[i + 1]) then (File(arg, Some(argv[i + 1])), i + 2)
      else (File(arg, None), i + 1)
    else if arg == "--output-raw" then
      if i + 1 < |argv| && argv[i + 1] == "-" then (OutputRaw(true), i + 2) else (OutputRaw(false), i + 1)
    else if arg == "-p" || arg == "--play" then (Play(arg), i + 1)
    else if arg == "--" then (EndOfOptions(argv[i + 1..]), |argv|)
    else (Text(argv[i..]), |argv|)
  }

  /**
   * The tokens of `argv[i..]`: the loop stops reading at a help option, and
   * `--` and text take the rest of the arguments.
   */
  function Tokens(argv: seq<string>, i: nat): (ts: seq<SayToken>)
    ensures i <= |argv| ==> |ts| <= |argv| - i
    ensures forall k :: 0 <= k < |ts| - 1 ==> !ts[k].Help? && !ts[k].EndOfOptions? && !ts[k].Text?
    decreases |argv| - i
  {
    if i >= |argv| then []
    else
      var r := NextToken(argv, i);
      if r.0.Help? then [r.0] else [r.0] + Tokens(argv, r.1)
  }

  /** The arguments a token stands for. */
  function Words(t: SayToken): seq<string>
  {
    match t
    case Help(flag) => [flag]
    case Model(flag, value) => [flag] + (if value.Some? then [value.value] else [])
    case Input(flag, value) => [flag] + (if value.Some? then [value.value] else [])
    case File(flag, value) => [flag] + (if value.Some? then [value.value] else [])
    case OutputRaw(dash) => ["--output-raw"] + (if dash then ["-"] else [])
    case Play(flag) => [flag]
    case EndOfOptions(rest) => ["--"] + rest
    case Text(words) => words
  }

  function AllWords(ts: seq<SayToken>): seq<string>
    decreases |ts|
  {
    if |ts| == 0 then [] else Words(ts[0]) + AllWords(ts[1..])
  }

  /**
   * `ws` reads `rest` from its start, each argument once and in order, and
   * stops early only after a help option.
   */
  predicate Covers(ws: seq<string>, rest: seq<string>)
  {
    |ws| <= |rest| && ws == rest[..|ws|] && (|ws| < |rest| ==> "-h" in ws || "--help" in ws)
  }

  lemma CoversPrepend(pre: seq<string>, ws: seq<string>, rest: seq<string>)
    requires Covers(ws, rest)
    ensures Covers(pre + ws, pre + rest)
  {
    assert (pre + rest)[..|pre + ws|] == pre + rest[..|ws|];
  }

  lemma AllWordsCons(t: SayToken, ts: seq<SayToken>)
    ensures AllWords([t] + ts) == Words(t) + AllWords(ts)
  {
    assert ([t] + ts)[1..] == ts;
  }

  /** The token at `argv[i]` stands for exactly the arguments it reads. */
  lemma NextTokenReads(argv: seq<string>, i: nat)
    requires i < |argv|
    ensures var r := NextToken(argv, i); Words(r.0) == argv[i..r.1]
  {
    var arg := argv[i];
    if arg == "--" {
      SliceHead(argv, i);
    } else if arg in {"-m", "--model", "-i", "--input", "-f", "--file", "--output-raw"} && NextToken(argv, i).1 == i + 2 {
      SliceTwo(argv, i);
    } else if NextToken(argv, i).1 == i + 1 {
      SliceOne(argv, i);
    }
  }

  /** A token reading `argv[i..j]` ahead of words that cover `argv[j..]` covers `argv[i..]`. */
  lemma CoverStep(argv: seq<string>, i: nat, j: nat, t: SayToken, ts: seq<SayToken>)
    requires i < j <= |argv| && Words(t) == argv[i..j]
    requires Covers(AllWords(ts), argv[j..])
    ensures Covers(AllWords([t] + ts), argv[i..])
  {
    AllWordsCons(t, ts);
    CoversPrepend(argv[i..j], AllWords(ts), argv[j..]);
    SliceSplit(argv, i, j);
  }

  /** The tokens account for every argument from `i` on, each once and in order; only a help option stops the reading early. */
  lemma {:induction false} TokensCoverArguments(argv: seq<string>, i: nat)
    ensures Covers(AllWords(Tokens(argv, i)), if i <= |argv| then argv[i..] else [])
    decreases |argv| - i
  {
    if i < |argv| {
      var r := NextToken(argv, i);
      NextTokenReads(argv, i);
      if r.0.Help? {
        assert Tokens(argv, i) == [r.0] + [];
        AllWordsCons(r.0, []);
        SliceOfSuffix(argv, i, 1);
      } else {
        assert Tokens(argv, i) == [r.0] + Tokens(argv, r.1);
        TokensCoverArguments(argv, r.1);
        CoverStep(argv, i, r.1, r.0, Tokens(argv, r.1));
      }
    }
  }

  /** The effect of one token on the variables (help ends the loop instead). */
  function Step(o: SayOptions, t: SayToken): (o': SayOptions)
    ensures !t.Model? ==> o'.modelName == o.modelName
    ensures !t.Input? ==> o'.inputFile == o.inputFile
    ensures !t.File? ==> o'.outputFile == o.outputFile && o'.useFileOutput == o.useFileOutput
    ensures !t.OutputRaw? ==> o'.outputToStdout == o.outputToStdout
    ensures !t.Play? ==> o'.playAudio == o.playAudio
    ensures !t.EndOfOptions? && !t.Text? ==> o'.inputText == o.inputText
  {
    match t
    case Help(_) => o
    case Model(_, value) => if value.Some? then o.(modelName := value.value) else o
    case Input(_, value) => if value.Some? then o.(inputFile := value.value) else o
    case File(_, value) =>
      o.(useFileOutput := true, outputFile := if value.Some? then value.value else DEFAULT_OUTPUT_FILE)
    case OutputRaw(dash) => if dash then o.(outputToStdout := true) else o
    case Play(_) => o.(playAudio := true)
    case EndOfOptions(rest) => if |rest| > 0 then o.(inputText := JoinWith(rest, ' ')) else o
    case Text(words) => if o.inputText == "" then o.(inputText := JoinWith(words, ' ')) else o
  }

  /** The argument loop's outcome: help was asked for, or the variables it leaves. */
  datatype ParsedArgs = ShowHelp | Parsed(options: SayOptions)

  function Apply(o: SayOptions, ts: seq<SayToken>): ParsedArgs
    decreases |ts|
  {
    if |ts| == 0 then Parsed(o)
    else if ts[0].Help? then ShowHelp
    else Apply(Step(o, ts[0]), ts[1..])
  }

  /** The loop's view of one iteration: help ends it, any other token updates the variables. */
  lemma ApplyFirst(o: SayOptions, argv: seq<string>, i: nat)
    requires i < |argv|
    ensures NextToken(argv, i).0.Help? ==> Apply(o, Tokens(argv, i)) == ShowHelp
    ensures !NextToken(argv, i).0.Help? ==>
      Apply(o, Tokens(argv, i)) == Apply(Step(o, NextToken(argv, i).0), Tokens(argv, NextToken(argv, i).1))
  {
    var r := NextToken(argv, i);
    if r.0.Help? {
      assert Tokens(argv, i) == [r.0];
    } else {
      ApplyCons(o, r.0, Tokens(argv, r.1));
    }
  }

  /** The fold shows help exactly when one of the tokens is a help option. */
  lemma {:induction false} ApplyHelp(o: SayOptions, ts: seq<SayToken>)
    ensures Apply(o, ts) == ShowHelp <==> exists k :: 0 <= k < |ts| && ts[k].Help?
    decreases |ts|
  {
    if |ts| > 0 && !ts[0].Help? {
      ApplyHelp(Step(o, ts[0]), ts[1..]);
      assert forall k :: 1 <= k < |ts| ==> ts[k] == ts[1..][k - 1];
    }
  }

  /**
   * Help is shown exactly when the loop ends on a help option, whatever
   * options came before it; the loop reads nothing after one.
   */
  lemma SayArgsHelp(argv: seq<string>)
    ensures var ts := Tokens(argv, 1); SayArgs(argv) == ShowHelp <==> |ts| > 0 && ts[|ts| - 1].Help?
  {
    ApplyHelp(INITIAL, Tokens(argv, 1));
  }

  /** What the argument loop of `main` makes of `argv`. */
  function SayArgs(argv: seq<string>): ParsedArgs
  {
    Apply(INITIAL, Tokens(argv, 1))
  }

  /**
   * One pass of the argument loop for an argument that is not a help option:
   * it reads the token `NextToken` finds and updates the variables as `Step`
   * says; `stop` is the `break` after `--` and after text. The text branch
   * only ever sees an empty `input_text`, because the two branches that set
   * it also leave the loop.
   */
  method ReadOption(argv: seq<string>, i: nat, o: SayOptions) returns (next: nat, o': SayOptions, stop: bool)
    requires i < |argv| && argv[i] != "-h" && argv[i] != "--help"
    requires o.inputText == ""
    ensures var r := NextToken(argv, i); next == r.1 && o' == Step(o, r.0)
    ensures stop <==> NextToken(argv, i).0.EndOfOptions? || NextToken(argv, i).0.Text?
    ensures !stop ==> o'.inputText == ""
  {
    var arg := argv[i];
    next, o', stop := i, o, false;
    if arg == "-m" || arg == "--model" {
      if i + 1 < |argv| {
        next := next + 1;
        o' := o'.(modelName := argv[next]);
      }
    } else if arg == "-i" || arg == "--input" {
      if i + 1 < |argv| {
        next := next + 1;
        o' := o'.(inputFile := argv[next]);
      }
    } else if arg == "-f" || arg == "--file" {
      o' := o'.(useFileOutput := true);
      if i + 1 < |argv| && !StartsWithDash(argv[i + 1]) {
        next := next + 1;
        o' := o'.(outputFile := argv[next]);
      } else {
        o' := o'.(outputFile := DEFAULT_OUTPUT_FILE);
      }
    } else if arg == "--output-raw" {
      if i + 1 < |argv| && argv[i + 1] == "-" {
        o' := o'.(outputToStdout := true);
        next := next + 1;
      }
    } else if arg == "-p" || arg == "--play" {
      o' := o'.(playAudio := true);
    } else if arg == "--" {
      if i + 1 < |argv| {
        var text := JoinArgs(argv, i + 1);
        o' := o'.(inputText := text);
      }
      return |argv|, o', true;
    } else if o'.inputText == "" {
      var text := JoinArgs(argv, i);
      o' := o'.(inputText := text);
      return |argv|, o', true;
    }
    next := next + 1;
  }

  /** The argument loop of `main`. */
  method ParseSayArgs(argv: seq<string>) returns (r: ParsedArgs)
    ensures r == SayArgs(argv)
  {
    var o := INITIAL;
    var i := 1;
    while i < |argv|
      invariant 1 <= i
      invariant o.inputText == ""
      invariant Apply(o, Tokens(argv, i)) == SayArgs(argv)
      decreases |argv| - i
    {
      var arg := argv[i];
      ApplyFirst(o, argv, i);
      if arg == "-h" || arg == "--help" {
        return ShowHelp;
      }
      var next, o', stop := ReadOption(argv, i, o);
      o, i := o', next;
      if stop {
        break;
      }
    }
    return Parsed(o);
  }

  // ---------------------------------------------------------------------------
  // main

  /** What `main` reads from its surroundings. */
  datatype Host = Host(
    pulseAudio: bool,                  // built with ENABLE_PULSEAUDIO
    espeakDataPath: Option<string>,    // getenv("ESPEAK_DATA_PATH")
    piperVoicePath: Option<string>,    // getenv("PIPER_VOICE_PATH")
    files: map<string, string>,        // the input files that open, and their contents
    stdin: string)

  /** The audio sink: playback, else standard output, else the output file; without any, the audio is dropped. */
  function SinkOf(o: SayOptions): (sink: Sink)
    ensures sink == Playback <==> o.playAudio
    ensures sink == Discard <==> !o.playAudio && !o.outputToStdout && !o.useFileOutput
    ensures sink.OutputFile? ==> o.useFileOutput && !o.outputToStdout && sink.name == o.outputFile
  {
    if o.playAudio then Playback
    else if o.outputToStdout then Stdout
    else if o.useFileOutput then OutputFile(o.outputFile)
    else Discard
  }

  /** The text to speak: the input file wins, then text from the arguments, then standard input. */
  function SayText(o: SayOptions, host: Host): (text: string)
    requires o.inputFile != "" ==> o.inputFile in host.files
    ensures text == "" ==> (o.inputFile != "" && host.files[o.inputFile] == "") || (o.inputFile == "" && host.stdin == "")
    ensures o.inputFile == "" && o.inputText == "" ==>
      |host.stdin| <= |text| && text[..|host.stdin|] == host.stdin && (|text| == 0 || text[|text| - 1] == '\n')
  {
    if o.inputFile != "" then host.files[o.inputFile]
    else if o.inputText == "" then StdinText(host.stdin)
    else o.inputText
  }

  /** What `main` does with `argv` in `host`, up to `piper_create`. */
  function SayPlan(argv: seq<string>, host: Host): (run: Run)
    ensures run == Exit(0, HelpShown) <==> SayArgs(argv) == ShowHelp
    ensures run.Exit? ==> run.code == 0 || (run.code == 1 && run.reason != HelpShown)
    ensures run.Synthesize? ==> run.jsonPath == run.onnxPath + ".json"
  {
    match SayArgs(argv)
    case ShowHelp => Exit(0, HelpShown)
    case Parsed(o) =>
      if o.modelName == "" then Exit(1, MissingModel)
      else if o.playAudio && !host.pulseAudio then Exit(1, NoPlaybackSupport)
      else if o.inputFile != "" && o.inputFile !in host.files then Exit(1, CannotOpenInput(o.inputFile))
      else
        var dir := ModelDir(host.piperVoicePath);
        ModelPaths(dir, o.modelName, "");
        Synthesize(OnnxPath(dir, o.modelName), JsonPath(dir, o.modelName),
                   EnvOr(host.espeakDataPath, DEFAULT_ESPEAK_DATA), SayText(o, host), SinkOf(o))
  }

  /** `main` up to `piper_create`: parse, check, read the text, build the paths. */
  method SayMain(argv: seq<string>, host: Host) returns (run: Run)
    ensures run == SayPlan(argv, host)
  {
    var parsed := ParseSayArgs(argv);
    if parsed.ShowHelp? {
      return Exit(0, HelpShown);
    }
    var o := parsed.options;
    if o.modelName == "" {
      return Exit(1, MissingModel);
    }
    if o.playAudio && !host.pulseAudio {
      return Exit(1, NoPlaybackSupport);
    }
    var text := o.inputText;
    if o.inputFile != "" {
      if o.inputFile !in host.files {
        return Exit(1, CannotOpenInput(o.inputFile));
      }
      text := host.files[o.inputFile];
    } else if text == "" {
      text := ReadStdin(host.stdin);
    }
    var espeakPath := EnvOr(host.espeakDataPath, DEFAULT_ESPEAK_DATA);
    var dir := "./";
    if host.piperVoicePath.Some? {
      dir := host.piperVoicePath.value + "/";
    }
    var onnxPath := dir + o.modelName + ".onnx";
    var jsonPath := dir + o.modelName + ".onnx.json";
    return Synthesize(onnxPath, jsonPath, espeakPath, text, SinkOf(o));
  }

  // ---------------------------------------------------------------------------
  // Properties

  /**
   * Synthesis needs a model name: without one `main` exits with 1 (or 0 for
   * help); with one, the two paths name `<model>.onnx` and its `.json` beside
   * it in the voice directory.
   */
  lemma ModelRequired(argv: seq<string>, host: Host)
    ensures SayArgs(argv).Parsed? && SayArgs(argv).options.modelName == "" ==> SayPlan(argv, host) == Exit(1, MissingModel)
    ensures SayPlan(argv, host).Synthesize? ==>
      && SayArgs(argv).Parsed?
      && var r := SayPlan(argv, host); var dir := ModelDir(host.piperVoicePath);
      && SayArgs(argv).options.modelName != ""
      && r.onnxPath == OnnxPath(dir, SayArgs(argv).options.modelName)
      && r.jsonPath == r.onnxPath + ".json"
  {
    if SayPlan(argv, host).Synthesize? {
      ModelPaths(ModelDir(host.piperVoicePath), SayArgs(argv).options.modelName, "");
    }
  }

  /**
   * Standard input is read exactly when neither an input file nor any text
   * was given on the command line.
   */
  lemma StdinOnlyWithoutOtherText(argv: seq<string>, host: Host)
    requires SayPlan(argv, host).Synthesize?
    ensures var o := SayArgs(argv).options; var text := SayPlan(argv, host).text;
      && (o.inputFile != "" ==> o.inputFile in host.files && text == host.files[o.inputFile])
      && (o.inputFile == "" && o.inputText != "" ==> text == o.inputText)
      && (o.inputFile == "" && o.inputText == "" ==> text == StdinText(host.stdin))
  {
  }

  lemma ApplyCons(o: SayOptions, t: SayToken, ts: seq<SayToken>)
    ensures Apply(o, [t] + ts) == if t.Help? then ShowHelp else Apply(Step(o, t), ts)
  {
    assert ([t] + ts)[1..] == ts;
  }

  /** `-m a -m b`: the later model wins. */
  lemma LastModelWins(a: string, b: string)
    ensures SayArgs(["say", "-m", a, "-m", b]) == Parsed(INITIAL.(modelName := b))
  {
    var argv := ["say", "-m", a, "-m", b];
    assert Tokens(argv, 5) == [];
    assert Tokens(argv, 3) == [Model("-m", Some(b))] + [];
    assert Tokens(argv, 1) == [Model("-m", Some(a))] + ([Model("-m", Some(b))] + []);
    ApplyCons(INITIAL, Model("-m", Some(a)), [Model("-m", Some(b))] + []);
    ApplyCons(INITIAL.(modelName := a), Model("-m", Some(b)), []);
  }

  /**
   * `-f` takes the next argument as its file only when it does not start
   * with a dash: `-f -p` writes to `output.raw` and plays.
   */
  lemma FileDefaultBeforeOption(m: string)
    ensures SayArgs(["say", "-m", m, "-f", "-p"]) ==
      Parsed(INITIAL.(modelName := m, useFileOutput := true, outputFile := DEFAULT_OUTPUT_FILE, playAudio := true))
  {
    var argv := ["say", "-m", m, "-f", "-p"];
    var o1 := INITIAL.(modelName := m);
    var o2 := o1.(useFileOutput := true, outputFile := DEFAULT_OUTPUT_FILE);
    assert Tokens(argv, 5) == [];
    assert Tokens(argv, 4) == [Play("-p")] + [];
    assert Tokens(argv, 3) == [File("-f", None)] + ([Play("-p")] + []);
    assert Tokens(argv, 1) == [Model("-m", Some(m))] + ([File("-f", None)] + ([Play("-p")] + []));
    ApplyCons(INITIAL, Model("-m", Some(m)), [File("-f", None)] + ([Play("-p")] + []));
    ApplyCons(o1, File("-f", None), [Play("-p")] + []);
    ApplyCons(o2, Play("-p"), []);
  }

  /**
   * Everything after `--` is the text, joined with single spaces, even words
   * that look like options; with nothing after it the text stays empty.
   */
  lemma TextAfterDoubleDash(m: string, words: seq<string>)
    ensures SayArgs(["say", "-m", m, "--"] + words) ==
      Parsed(INITIAL.(modelName := m, inputText := JoinWith(words, ' ')))
  {
    var argv := ["say", "-m", m, "--"] + words;
    assert argv[4..] == words;
    TokensAtDoubleDash(argv, 3);
    TokensAtModel(argv, 1);
    ApplyCons(INITIAL, Model("-m", Some(m)), [EndOfOptions(words)]);
    ApplyCons(INITIAL.(modelName := m), EndOfOptions(words), []);
  }

  lemma TokensAtDoubleDash(argv: seq<string>, i: nat)
    requires i < |argv| && argv[i] == "--"
    ensures Tokens(argv, i) == [EndOfOptions(argv[i + 1..])]
  {
  }

  lemma TokensAtModel(argv: seq<string>, i: nat)
    requires i + 1 < |argv| && argv[i] == "-m"
    ensures Tokens(argv, i) == [Model("-m", Some(argv[i + 1]))] + Tokens(argv, i + 2)
  {
  }

  /** The options the argument loop recognises; `--` ends it. */
  predicate IsOption(arg: string)
  {
    arg in {"-h", "--help", "-m", "--model", "-i", "--input", "-f", "--file", "--output-raw", "-p", "--play", "--"}
  }

  /**
   * The first argument that is not an option, even one starting with a
   * dash, ends the loop and starts the text; options after it are words of
   * the text. So `say hello -m voice` has no model and exits with 1.
   */
  lemma TextSwallowsLaterOptions(word: string, m: string, host: Host)
    requires !IsOption(word)
    ensures SayArgs(["say", word, "-m", m]) == Parsed(INITIAL.(inputText := JoinWith([word, "-m", m], ' ')))
    ensures SayPlan(["say", word, "-m", m], host) == Exit(1, MissingModel)
  {
    var argv := ["say", word, "-m", m];
    assert argv[1..] == [word, "-m", m];
    assert Tokens(argv, 1) == [Text([word, "-m", m])] + [];
    ApplyCons(INITIAL, Text([word, "-m", m]), []);
  }

  /** Help ends the loop wherever it comes among the options, whatever was set before: `main` returns 0. */
  lemma {:induction false} HelpStopsParsing(argv: seq<string>, i: nat, o: SayOptions, host: Host)
    requires 1 <= i < |argv| && (argv[i] == "-h" || argv[i] == "--help")
    requires forall k :: 1 <= k < i ==> argv[k] in {"-p", "--play", "--output-raw"}
    ensures Apply(o, Tokens(argv, i)) == ShowHelp
    ensures SayPlan(argv, host) == Exit(0, HelpShown)
    ensures SayArgs(argv) == ShowHelp
  {
    PrefixOfFlags(argv, 1, i, INITIAL);
  }

  /** Flags without values, up to a help option, are read one by one and lead to it. */
  lemma {:induction false} PrefixOfFlags(argv: seq<string>, j: nat, i: nat, o: SayOptions)
    requires 1 <= j <= i < |argv| && (argv[i] == "-h" || argv[i] == "--help")
    requires forall k :: j <= k < i ==> argv[k] in {"-p", "--play", "--output-raw"}
    ensures Apply(o, Tokens(argv, j)) == ShowHelp
    decreases i - j
  {
    ApplyFirst(o, argv, j);
    if j < i {
      FlagToken(argv, j);
      var t := NextToken(argv, j).0;
      PrefixOfFlags(argv, j + 1, i, Step(o, t));
    }
  }

  /** A flag without a value, not followed by `-`, is a token of its own. */
  lemma FlagToken(argv: seq<string>, j: nat)
    requires j + 1 < |argv| && argv[j] in {"-p", "--play", "--output-raw"} && argv[j + 1] != "-"
    ensures NextToken(argv, j).1 == j + 1 && !NextToken(argv, j).0.Help?
  {
  }

  /** `--output-raw` without a following `-` does nothing, and the next argument is read on its own. */
  lemma OutputRawNeedsDash(m: string)
    ensures SayArgs(["say", "-m", m, "--output-raw", "-p"]) == Parsed(INITIAL.(modelName := m, playAudio := true))
    ensures SayArgs(["say", "-m", m, "--output-raw", "-"]) == Parsed(INITIAL.(modelName := m, outputToStdout := true))
  {
    var o1 := INITIAL.(modelName := m);
    var argv := ["say", "-m", m, "--output-raw", "-p"];
    assert Tokens(argv, 5) == [];
    assert Tokens(argv, 4) == [Play("-p")] + [];
    assert Tokens(argv, 3) == [OutputRaw(false)] + ([Play("-p")] + []);
    assert Tokens(argv, 1) == [Model("-m", Some(m))] + ([OutputRaw(false)] + ([Play("-p")] + []));
    ApplyCons(INITIAL, Model("-m", Some(m)), [OutputRaw(false)] + ([Play("-p")] + []));
    ApplyCons(o1, OutputRaw(false), [Play("-p")] + []);
    ApplyCons(o1, Play("-p"), []);
    var argv2 := ["say", "-m", m, "--output-raw", "-"];
    assert Tokens(argv2, 5) == [];
    assert Tokens(argv2, 3) == [OutputRaw(true)] + [];
    assert Tokens(argv2, 1) == [Model("-m", Some(m))] + ([OutputRaw(true)] + []);
    ApplyCons(INITIAL, Model("-m", Some(m)), [OutputRaw(true)] + []);
    ApplyCons(o1, OutputRaw(true), []);
  }
}
