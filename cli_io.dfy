/**
 * What the two command-line programs libpiper/say.cpp and libpiper/piper.cpp
 * share: reading standard input line by line with `std::getline`, joining
 * arguments with spaces, and building the model paths from
 * `PIPER_VOICE_PATH`.
 */
module CliIo {
  import opened Common
  import opened Strings

  /** The eSpeak-ng data directory used when `ESPEAK_DATA_PATH` is unset. */
  const DEFAULT_ESPEAK_DATA := "/data/data/com.termux/files/usr/share/espeak-ng-data"

  /** Where the synthesized audio goes. */
  datatype Sink = Playback | Stdout | OutputFile(name: string) | Discard

  /** Why `main` returns before synthesizing. */
  datatype ExitReason = HelpShown | MissingModel | NoPlaybackSupport | CannotOpenInput(path: string)

  /** What `main` does: return early with an exit code, or load the model and speak the text into the sink. */
  datatype Run =
    | Exit(code: int, reason: ExitReason)
    | Synthesize(onnxPath: string, jsonPath: string, espeakPath: string, text: string, sink: Sink)

  // ---------------------------------------------------------------------------
  // while (std::getline(std::cin, line)) ss << line << "\n";

  /** The text the getline loop collects: the input, with a line feed added when its last line lacks one. */
  function StdinText(input: string): (r: string)
    ensures |input| <= |r| <= |input| + 1 && r[..|input|] == input
    ensures |r| > 0 ==> r[|r| - 1] == '\n'
    ensures |r| > |input| ==> |input| > 0 && input[|input| - 1] != '\n'
  {
    if |input| == 0 || input[|input| - 1] == '\n' then input else input + "\n"
  }

  /** One line and its line feed come off the front unchanged. */
  lemma StdinTextAfterLine(line: string, rest: string)
    ensures StdinText(line + "\n" + rest) == line + "\n" + StdinText(rest)
  {
    var s := line + "\n" + rest;
    if |rest| > 0 {
      assert s[|s| - 1] == rest[|rest| - 1];
    }
  }

  /** One getline call: the line up to `end` (a line feed or the end of input) and where reading resumes. */
  lemma GetlineStep(input: string, pos: nat, end: nat)
    requires pos < |input| && pos <= end <= |input|
    requires forall k :: pos <= k < end ==> input[k] != '\n'
    requires end == |input| || input[end] == '\n'
    ensures var next := if end < |input| then end + 1 else end;
      StdinText(input[pos..]) == input[pos..end] + "\n" + StdinText(input[next..])
  {
    var line := input[pos..end];
    if end < |input| {
      assert input[pos..] == line + "\n" + input[end + 1..];
      StdinTextAfterLine(line, input[end + 1..]);
    } else {
      assert input[pos..] == line;
      assert input[end..] == [];
    }
  }

  /** One pass of the getline loop keeps the collected text plus what is still to come equal to the whole. */
  lemma ReadStep(input: string, pos: nat, end: nat, text: string)
    requires pos < |input| && pos <= end <= |input|
    requires forall k :: pos <= k < end ==> input[k] != '\n'
    requires end == |input| || input[end] == '\n'
    ensures var next := if end < |input| then end + 1 else end;
      text + StdinText(input[pos..]) == (text + input[pos..end] + "\n") + StdinText(input[next..])
  {
    GetlineStep(input, pos, end);
    var next := if end < |input| then end + 1 else end;
    Regroup(text, input[pos..end], "\n", StdinText(input[next..]));
  }

  lemma Regroup<T>(a: seq<T>, b: seq<T>, c: seq<T>, d: seq<T>)
    ensures a + (b + c + d) == (a + b + c) + d
  {
  }

  /** When the input is used up, the collected text is all of it. */
  lemma ReadDone(input: string, text: string)
    ensures text + StdinText(input[|input|..]) == text
  {
    assert input[|input|..] == [];
  }

  /** Where the line `getline` reads from `pos` ends: at the next line feed, or at the end of input. */
  method LineEnd(input: string, pos: nat) returns (end: nat)
    requires pos <= |input|
    ensures pos <= end <= |input|
    ensures forall k :: pos <= k < end ==> input[k] != '\n'
    ensures end == |input| || input[end] == '\n'
  {
    end := pos;
    while end < |input| && input[end] != '\n'
      invariant pos <= end <= |input|
      invariant forall k :: pos <= k < end ==> input[k] != '\n'
      decreases |input| - end
    {
      end := end + 1;
    }
  }

  /**
   * The getline loop over standard input: each call takes the characters up
   * to the next line feed (dropping it) or to the end of input, and fails only
   * when no character is left; each line is written back with a line feed.
   */
  method ReadStdin(input: string) returns (text: string)
    ensures text == StdinText(input)
  {
    text := "";
    var pos := 0;
    assert input[0..] == input;
    while pos < |input|
      invariant 0 <= pos <= |input|
      invariant text + StdinText(input[pos..]) == StdinText(input)
      decreases |input| - pos
    {
      var end := LineEnd(input, pos);
      ReadStep(input, pos, end, text);
      text := text + input[pos..end] + "\n";
      pos := if end < |input| then end + 1 else end;
    }
    ReadDone(input, text);
  }

  /** Each line with its line feed, one after another. */
  function Terminated(lines: seq<string>): (r: string)
    ensures |r| == 0 || r[|r| - 1] == '\n'
    decreases |lines|
  {
    if |lines| == 0 then [] else Terminated(lines[..|lines| - 1]) + lines[|lines| - 1] + "\n"
  }

  /** The lines of `input` as getline returns them: the pieces between line feeds, less an empty last one. */
  function Lines(input: string): (lines: seq<string>)
    ensures forall k :: 0 <= k < |lines| ==> '\n' !in lines[k]
  {
    var parts := SplitOn(input, '\n');
    if parts[|parts| - 1] == [] then parts[..|parts| - 1] else parts
  }

  lemma {:induction false} TerminatedIsJoin(lines: seq<string>)
    requires |lines| >= 1
    ensures Terminated(lines) == JoinWith(lines, '\n') + "\n"
    decreases |lines|
  {
    var n := |lines|;
    if n > 1 {
      TerminatedIsJoin(lines[..n - 1]);
      JoinSnoc(lines[..n - 1], '\n', lines[n - 1]);
      assert lines[..n - 1] + [lines[n - 1]] == lines;
    } else {
      assert lines[..0] == [];
    }
  }

  /**
   * The getline loop reads the input's lines, each ended by a line feed:
   * `StdinText` agrees with that line-based reading on every input.
   */
  lemma StdinTextIsLines(input: string)
    ensures StdinText(input) == Terminated(Lines(input))
  {
    var parts := SplitOn(input, '\n');
    if parts[|parts| - 1] != [] {
      LinesUnterminated(input);
    } else if |parts| > 1 {
      LinesTerminated(input);
    } else {
      JoinSplit(input, '\n');
      assert parts == [[]];
    }
  }

  /** Input that ends with a line feed is read as it is: its lines, each with its line feed. */
  lemma LinesTerminated(input: string)
    requires var parts := SplitOn(input, '\n'); |parts| > 1 && parts[|parts| - 1] == []
    ensures StdinText(input) == Terminated(Lines(input))
  {
    var parts := SplitOn(input, '\n');
    var init := parts[..|parts| - 1];
    var j := JoinWith(init, '\n');
    JoinSplit(input, '\n');
    InitLast(parts);
    JoinSnoc(init, '\n', []);
    SnocNil(j, '\n');
    assert input == j + "\n";
    TerminatedIsJoin(init);
  }

  lemma InitLast<T>(s: seq<T>)
    requires |s| > 0
    ensures s[..|s| - 1] + [s[|s| - 1]] == s
  {
  }

  lemma SnocNil<T>(j: seq<T>, c: T)
    ensures j + [c] + [] == j + [c] && (j + [c])[|j|] == c
  {
  }

  /** Input whose last line has no line feed gets one. */
  lemma LinesUnterminated(input: string)
    requires var parts := SplitOn(input, '\n'); parts[|parts| - 1] != []
    ensures StdinText(input) == Terminated(Lines(input))
  {
    var parts := SplitOn(input, '\n');
    JoinSplit(input, '\n');
    TerminatedIsJoin(parts);
    var last := parts[|parts| - 1];
    assert last[|last| - 1] != '\n';
    LastOfJoin(parts, '\n');
  }

  /** A join ends with the last character of its last piece, when that piece is not empty. */
  lemma {:induction false} LastOfJoin(parts: seq<string>, sep: char)
    requires |parts| >= 1 && |parts[|parts| - 1]| > 0
    ensures var j := JoinWith(parts, sep); var last := parts[|parts| - 1];
      |j| > 0 && j[|j| - 1] == last[|last| - 1]
    decreases |parts|
  {
    if |parts| > 1 {
      LastOfJoin(parts[1..], sep);
    }
  }

  // ---------------------------------------------------------------------------
  // text_stream << argv[j] << (j < argc - 1 ? " " : "")

  /**
   * The loop that writes `args[from..]` to a string stream, each followed by
   * a space except the last: the arguments separated by single spaces.
   */
  method JoinArgs(args: seq<string>, from: nat) returns (text: string)
    requires from <= |args|
    ensures text == JoinWith(args[from..], ' ')
  {
    text := "";
    var j := from;
    while j < |args|
      invariant from <= j <= |args|
      invariant j == from ==> text == ""
      invariant j > from ==> text == JoinWith(args[from..j], ' ') + (if j < |args| then " " else "")
      decreases |args| - j
    {
      if j > from {
        JoinSnoc(args[from..j], ' ', args[j]);
        assert args[from..j] + [args[j]] == args[from..j + 1];
      } else {
        assert args[from..j + 1] == [args[j]];
      }
      text := text + args[j] + (if j < |args| - 1 then " " else "");
      j := j + 1;
    }
    if j == from {
      assert args[from..] == [];
    } else {
      assert args[from..j] == args[from..];
    }
  }

  /** Text joined from arguments without spaces splits back into those arguments. */
  lemma JoinedArgsSplit(args: seq<string>)
    requires |args| >= 1
    requires forall k :: 0 <= k < |args| ==> ' ' !in args[k]
    ensures SplitOn(JoinWith(args, ' '), ' ') == args
  {
    SplitJoin(args, ' ');
  }

  // ---------------------------------------------------------------------------
  // Paths

  /** `model_dir`: `PIPER_VOICE_PATH` followed by `/`, or `./` when it is unset. */
  function ModelDir(voicePath: Option<string>): (dir: string)
    ensures |dir| > 0 && dir[|dir| - 1] == '/'
  {
    match voicePath
    case None => "./"
    case Some(p) => p + "/"
  }

  /** The model file: `<model_dir><model_name>.onnx`. */
  function OnnxPath(dir: string, modelName: string): string
  {
    dir + modelName + ".onnx"
  }

  /** The model's config file: `<model_dir><model_name>.onnx.json`. */
  function JsonPath(dir: string, modelName: string): string
  {
    dir + modelName + ".onnx.json"
  }

  /**
   * The config sits next to the model, its name the model's with `.json`
   * appended, and both names start with the directory; different model names
   * give different model files.
   */
  lemma ModelPaths(dir: string, modelName: string, otherName: string)
    ensures JsonPath(dir, modelName) == OnnxPath(dir, modelName) + ".json"
    ensures OnnxPath(dir, modelName)[..|dir|] == dir
    ensures OnnxPath(dir, modelName) == OnnxPath(dir, otherName) ==> modelName == otherName
  {
    if OnnxPath(dir, modelName) == OnnxPath(dir, otherName) {
      var a := OnnxPath(dir, modelName);
      assert |modelName| == |otherName|;
      assert modelName == a[|dir|..|dir| + |modelName|];
    }
  }

  /** `getenv(name)` when set, the default otherwise. */
  function EnvOr(value: Option<string>, default: string): string
  {
    match value
    case None => default
    case Some(v) => v
  }
}
