# piper1-gpl core, modelled in Dafny

This project models the text-handling and control logic of the Piper
text-to-speech repository. The neural synthesis itself is not modelled.

* `clean_text.dfy` (`CleanText`) covers `cleanText` in `libpiper/clean_text.cpp`.
  Over UTF-32 code points it replaces each ZWNJ (U+200C) with a space and
  drops every code point in the twelve emoji ranges of `isEmoji`. It then
  deletes every match of `(https?://|www\.)[^\s]+` from left to right. The
  filter loop is a method proved equal to a specification function. Lemmas
  state what the result is free of, and that link stripping deletes exactly
  the matches and is idempotent. They also state how the two phases
  interact: a ZWNJ ends a link, while an emoji inside a link vanishes and
  the link runs on across it.
* `download_voices.dfy` (`DownloadVoices`) covers `download_voice` and its
  helpers in `src/piper/download_voices.py`. That means Python's `str.strip`,
  the `VOICE_PATTERN` regular expression with Python's `re` semantics (a
  greedy family group, and `$` also matching before a final line feed),
  the voice code and URLs, the `_needs_download` decision, and the
  `_copyfileobj_with_progress` loop. The loop is a method on a `DestFile`
  object whose contents it extends. The network is a sequence of chunks.
* `wsgi.py` is modelled by `wsgi.dfy` (`Wsgi`): `map_if_not_none`,
  `require` and `create_app_args_from_env`. The environment is a map.
  Python's `int()` and `float()` are parameters that return `None` where
  Python raises `ValueError`. The current directory is also a parameter.
  Lemmas restate the cases of the repository's `tests/test_wsgi.py`.
  Those that read the full environment hold for any `int()` and `float()`
  that convert the test's own texts as Python does.
* `say_cli.dfy` (`SayCli`) and `piper_cli.dfy` (`PiperCli`) cover `main` of
  `libpiper/say.cpp` and `libpiper/piper.cpp` up to the call to
  `piper_create`. This includes argument parsing, the model-name and
  playback checks, the choice of input text (argument, file or standard
  input), the eSpeak and model paths, and the output sink. Each argument
  loop is a method proved equal to a fold over a token sequence. The token
  sequence is proved to cover the command line word for word. What the
  rest of `main` does is a `Run` value: an early exit with its code, or a
  synthesis request.
* `cli_io.dfy` (`CliIo`) holds what both programs share. It has the
  `std::getline` loop over standard input, proved against a line-based
  reading. It has the loop that joins arguments with spaces, and the
  `PIPER_VOICE_PATH` model paths.
* `strings.dfy` (`Strings`) has splitting on a separator (Python's
  `str.split(sep)`) and joining, with the round trips between them.
* `common.dfy` (`Common`) has `Option` and `Result`.

## Model

| member | source | states |
|---|---|---|
| CleanText.IsEmoji | libpiper/clean_text.cpp:24-39 | the twelve ranges `isEmoji` tests are exactly five disjoint blocks of code points |
| CleanText.EmojiBlocks | libpiper/clean_text.cpp:24-39 | nothing below U+2600 is an emoji (so no space, ZWNJ or ASCII character), and the Ornamental Dingbats block U+1F650..U+1F67F is not one either |
| CleanText.FilterOne | libpiper/clean_text.cpp:47-51 | one code point adds at most one code point to the cleaned text |
| CleanText.Filtered | libpiper/clean_text.cpp:46-52 | the filtered text is no longer than the input, contains no ZWNJ and no emoji, and contains only code points of the input or spaces |
| CleanText.FilteredAppend | libpiper/clean_text.cpp:46-52 | filtering works code point by code point: it distributes over concatenation |
| CleanText.FilteredCounts | libpiper/clean_text.cpp:46-52 | the number of spaces out equals spaces in plus ZWNJs in; emoji and ZWNJ never occur; every other code point occurs as often as in the input (contents, not just length) |
| CleanText.FilterCodePoints | libpiper/clean_text.cpp:46-52 | the filter loop builds exactly `Filtered` of the input |
| CleanText.FilteredIdentity | libpiper/clean_text.cpp:46-52 | text with no ZWNJ and no emoji passes the filter unchanged |
| CleanText.SchemeLen | libpiper/clean_text.cpp:57 | the scheme alternative matches `https://` (8), `http://` (7), `www.` (4) or nothing, and never matches white space |
| CleanText.IsSpace | libpiper/clean_text.cpp:57 | `\s` holds exactly for the space and U+0009..U+000D, none of which is a ZWNJ or an emoji |
| CleanText.RunLen | libpiper/clean_text.cpp:57 | `[^\s]+` consumes the longest run of non-white-space code points: all inside are non-space, the next one is space or the end |
| CleanText.RunLenSkip | libpiper/clean_text.cpp:57 | a run measured from inside it is the same run, shortened |
| CleanText.LinkLen | libpiper/clean_text.cpp:57 | a match at a position is a scheme followed by at least one non-space code point, extending to the end of the run |
| CleanText.StripLinks | libpiper/clean_text.cpp:58 | `regex_replace` with an empty replacement only deletes: the result is no longer than the input |
| CleanText.StripKeepsPrefix | libpiper/clean_text.cpp:58 | text in which no position starts a match is copied to the output unchanged |
| CleanText.StripDeletesLink | libpiper/clean_text.cpp:58 | a match after link-free text is deleted whole, and scanning resumes after it |
| CleanText.StripNoLink | libpiper/clean_text.cpp:58 | text with no match is left unchanged |
| CleanText.BareSchemeKept | libpiper/clean_text.cpp:57-58 | a scheme followed by white space or the end of text is not a match and is kept |
| CleanText.BareSchemeTail | libpiper/clean_text.cpp:57-58 | no position inside a bare scheme starts another match |
| CleanText.KeptRun | libpiper/clean_text.cpp:57-58 | the kept part of a run is a link-free prefix of it |
| CleanText.StripRun | libpiper/clean_text.cpp:58 | within one run of non-space code points, everything from the first match on is deleted and the part before it is kept |
| CleanText.LinkWithinPrefix | libpiper/clean_text.cpp:57 | whether a match starts depends only on the text up to the end of its run |
| CleanText.LinkFreeConcat | libpiper/clean_text.cpp:58 | a link-free piece cut at a run boundary, followed by link-free text beginning with white space, stays link-free |
| CleanText.StripLeavesNoLink | libpiper/clean_text.cpp:58 | no match is left after stripping: deletions never form a new link |
| CleanText.StripIdempotent | libpiper/clean_text.cpp:58 | stripping a second time changes nothing |
| CleanText.StripKeepsFreeOfZwnjAndEmoji | libpiper/clean_text.cpp:46-58 | stripping cannot bring back a ZWNJ or an emoji |
| CleanText.LinkExtends | libpiper/clean_text.cpp:57 | a match that fills a prefix goes on through the following run of non-space code points |
| CleanText.StripAfterLink | libpiper/clean_text.cpp:58 | such a match is deleted together with that run |
| CleanText.FilteredAround | libpiper/clean_text.cpp:46-52 | filtering text that has one more code point in the middle |
| CleanText.ZwnjEndsLink | libpiper/clean_text.cpp:46-58 | since filtering runs first, a ZWNJ inside a link becomes a space that ends the link, and the text after it is kept |
| CleanText.EmojiInsideLink | libpiper/clean_text.cpp:46-58 | an emoji inside a link is removed first, and the link then continues across it |
| CleanText.Clean | libpiper/clean_text.cpp:42-61 | `cleanText` is the filter loop followed by link stripping |
| CleanText.CleanResult | libpiper/clean_text.cpp:42-61 | the result of `cleanText` is no longer than its input and has no ZWNJ, no emoji and no link; cleaning it again changes nothing |
| DownloadVoices.Strip | src/piper/download_voices.py:84 | `strip()` is no longer than its input, and its result neither starts nor ends with white space |
| DownloadVoices.SkipSpace | src/piper/download_voices.py:84 | the index of the first character from `i` on that is not white space: everything skipped is white space |
| DownloadVoices.TrimEnd | src/piper/download_voices.py:84 | the end moved back over trailing white space, never below the start: everything dropped is white space and the new last character is not |
| DownloadVoices.StripIsPiece | src/piper/download_voices.py:84 | `strip()` returns a contiguous piece of the input that neither starts nor ends with white space |
| DownloadVoices.StripRemovesOnlySpace | src/piper/download_voices.py:84 | everything `strip()` removes on either side is white space |
| DownloadVoices.StripKeepsStripped | src/piper/download_voices.py:84 | already-stripped text is unchanged, so `strip()` is idempotent |
| DownloadVoices.IndexOf | src/piper/download_voices.py:15-17 | position of the first occurrence of a character, or the length when it is absent |
| DownloadVoices.FamilyEnd | src/piper/download_voices.py:15-17 | the greedy `lang_family` group ends at the last `_` that leaves both groups non-empty |
| DownloadVoices.MatchVoice | src/piper/download_voices.py:15-17 | text without a `-` does not match |
| DownloadVoices.MatchPieces | src/piper/download_voices.py:15-17 | a match is the language groups of the text before the first `-` together with the name and quality groups of the text after it |
| DownloadVoices.MatchLangCode | src/piper/download_voices.py:15-17 | the language code of a match is the text before the first `-` |
| DownloadVoices.LangSound | src/piper/download_voices.py:15-17 | a matched language segment is `family_region` with both groups non-empty, the region has no `_` before its last character, and neither group has a `-` when the segment has none |
| DownloadVoices.LangComplete | src/piper/download_voices.py:15-17 | every such pair of groups is matched back exactly |
| DownloadVoices.QualitySound | src/piper/download_voices.py:16 | a matched quality is non-empty and free of line feeds, and is followed by nothing or by one final line feed (`$`) |
| DownloadVoices.QualityComplete | src/piper/download_voices.py:16 | every such quality, with or without a final line feed, is matched back |
| DownloadVoices.NameQualitySound | src/piper/download_voices.py:16 | the voice name is non-empty and dash-free, and precedes `-quality` |
| DownloadVoices.NameQualityComplete | src/piper/download_voices.py:16 | every such name and quality is matched back |
| DownloadVoices.MatchSound | src/piper/download_voices.py:15-17 | a match yields well-formed groups, and the voice code rebuilt from them is the input, or the input less a final line feed |
| DownloadVoices.MatchComplete | src/piper/download_voices.py:15-17 | every well-formed set of groups is matched back from its voice code, with or without a final line feed (round trip) |
| DownloadVoices.GreedyFamilyExample | src/piper/download_voices.py:15-17 | `a_b_c-x-y` gives family `a_b` and region `c`: the family group is greedy |
| DownloadVoices.NeedsDownload | src/piper/download_voices.py:127-136 | a file needs downloading unless it is present and not empty |
| DownloadVoices.VoiceUrl | src/piper/download_voices.py:11 | every URL starts with the voices repository's prefix and ends with `?download=true` |
| DownloadVoices.FetchIfNeeded | src/piper/download_voices.py:105-124 | at most one fetch, made exactly when forced or the file needs a download, from `VoiceUrl` into `<voice_code><extension>` |
| DownloadVoices.DownloadVoice | src/piper/download_voices.py:84-89 | `ValueError` is raised exactly when the stripped voice does not match, and it names the stripped voice |
| DownloadVoices.DownloadTargets | src/piper/download_voices.py:91-122 | for a matching voice the voice code is the stripped voice; the model `<code>.onnx` and then the config `<code>.onnx.json` are each fetched into the download directory exactly when forced, missing or empty (`_needs_download`, lines 127-136) |
| DownloadVoices.UrlEndsWithFileName | src/piper/download_voices.py:11 | each download URL ends with `/<voice_code><extension>?download=true` |
| DownloadVoices.DestFile.constructor | src/piper/download_voices.py:109 | a freshly opened destination file is empty |
| DownloadVoices.Received | src/piper/download_voices.py:154-157 | the chunks read before the first empty one: a prefix of the stream, all non-empty, stopped by an empty chunk or the end |
| DownloadVoices.ReceivedIsPrefix | src/piper/download_voices.py:154-157 | any prefix of non-empty chunks followed by an empty chunk or the end is exactly what is received |
| DownloadVoices.ReceivedStopsAtEmpty | src/piper/download_voices.py:156-157 | nothing after the first empty chunk is read |
| DownloadVoices.CopyFileObjWithProgress | src/piper/download_voices.py:154-160 | the file gains exactly the bytes received, in order, and the count returned (line 192) is their number |
| Wsgi.MapIfNotNone | src/piper/wsgi.py:15-16 | `None` passes through; otherwise the converted value is returned, or the conversion's `ValueError` is propagated |
| Wsgi.Require | src/piper/wsgi.py:19-23 | fails with "Must be set." exactly when the value is `None`, and otherwise returns it |
| Strings.SplitOn | src/piper/wsgi.py:38 | `split(":")` gives at least one piece, and no piece contains the separator |
| Wsgi.DataDirs | src/piper/wsgi.py:38-39 | at least one directory: the current one, or non-empty colon-free entries |
| Wsgi.DataDirsRoundTrip | src/piper/wsgi.py:38-39 | a list of non-empty colon-free directories joined with `:` is read back as that list |
| Wsgi.DataDirsDefault | src/piper/wsgi.py:38-39 | unset, empty or colons-only gives the current directory |
| Wsgi.Flag | src/piper/wsgi.py:35-41 | a flag is on exactly when its variable is present and set to `True` |
| Wsgi.CreateAppArgsFromEnv | src/piper/wsgi.py:26-42 | on success the model is `PIPER_MODEL`'s text, the download directory is `PIPER_DOWNLOAD_DIR` as given, and cuda and debug hold exactly when their variables are the text `True` |
| Wsgi.FailsExactlyWhen | src/piper/wsgi.py:29-37 | fails exactly when the model is missing or a numeric variable fails to convert; |
| Wsgi.ModelCheckedFirst | src/piper/wsgi.py:28-30 | an unset model is the error reported, before any conversion error |
| Wsgi.NumericSettings | src/piper/wsgi.py:31-37 | on success each numeric field is absent exactly when its variable is unset, and otherwise is the converted text; the sentence silence defaults to 0.0 |
| Wsgi.FullEnvironment | tests/test_wsgi.py:65-88 | the full test environment yields the full set of arguments (line 105-106) |
| Wsgi.MinimalEnvironment | tests/test_wsgi.py:89-102 | only `PIPER_MODEL` set yields the defaults (lines 109-110) |
| Wsgi.EachOptionalVariable | tests/test_wsgi.py:113-123 | the minimal environment plus any one optional variable of the full one gives the minimal arguments with just that setting from the full arguments |
| Wsgi.MissingModel | tests/test_wsgi.py:126-132 | `PIPER_MODEL` set to `None` fails |
| Wsgi.BrokenVariable | tests/test_wsgi.py:135-157 | one unconvertible numeric variable in the full environment fails, naming its text |
| CliIo.StdinText | libpiper/say.cpp:166-171 | the collected text is the input with at most one line feed added, and only to a last line that lacks one; non-empty text ends with a line feed |
| CliIo.StdinTextAfterLine | libpiper/say.cpp:168-170 | one line and its line feed are passed through unchanged |
| CliIo.GetlineStep | libpiper/say.cpp:168-170 | one `getline` call takes the characters up to the next line feed, and the collected text continues with the rest |
| CliIo.LineEnd | libpiper/say.cpp:168 | one `getline` stops at the first line feed from the position, or at the end of the input |
| CliIo.ReadStdin | libpiper/say.cpp:166-171 | the loop produces the input, with a line feed added when the last line lacks one |
| CliIo.StdinTextIsLines | libpiper/piper.cpp:115-122 | that text is the input's lines, each followed by a line feed (agreement with a line-based reading) |
| CliIo.Terminated | libpiper/piper.cpp:118-120 | lines written with `<< line << "\n"` end with a line feed |
| CliIo.Lines | libpiper/piper.cpp:118 | the lines `getline` returns contain no line feed |
| CliIo.TerminatedIsJoin | libpiper/piper.cpp:118-120 | writing each line with its line feed is joining with line feeds, plus a final one |
| CliIo.JoinArgs | libpiper/say.cpp:119-123 | the text-stream loop joins the remaining arguments with single spaces |
| CliIo.JoinedArgsSplit | libpiper/say.cpp:130-133 | arguments without spaces are recovered by splitting the joined text on spaces |
| CliIo.ModelDir | libpiper/say.cpp:178-180 | the model directory always ends with `/` |
| CliIo.ModelPaths | libpiper/say.cpp:182-183 | the config path is the model path plus `.json`, both start with the directory, and different model names give different model files |
| SayCli.Tokens | libpiper/say.cpp:93-137 | at most one token per argument, and help, `--` and text can only be the last token |
| SayCli.Step | libpiper/say.cpp:97-135 | each variable is changed only by its own option: the model by `-m`, the input file by `-i`, the output file by `-f`, and so on |
| SayCli.NextToken | libpiper/say.cpp:94-136 | the token at an argument reads it and possibly more, never beyond the end, and is help exactly for `-h` and `--help` |
| SayCli.NextTokenReads | libpiper/say.cpp:97-136 | each option reads exactly the arguments the source consumes: the flag, its value when `i` is advanced, and everything left after `--` or text |
| SayCli.TokensCoverArguments | libpiper/say.cpp:93-137 | the tokens the argument loop sees use the arguments in order, none skipped or repeated, and stop before the end only after a help option (`--` and free text take all the rest) |
| SayCli.ParseSayArgs | libpiper/say.cpp:93-137 | the argument loop computes exactly the fold of `Step` over the tokens |
| SayCli.ReadOption | libpiper/say.cpp:97-136 | one pass of the loop body over a non-help argument reads exactly the token `NextToken` finds and applies `Step` to it; it leaves the loop exactly after `--` and text |
| SayCli.ApplyFirst | libpiper/say.cpp:93-96 | the fold over the tokens stops at help and otherwise applies the first token and goes on after it |
| SayCli.ApplyHelp | libpiper/say.cpp:94-96 | the fold shows help exactly when one of its tokens is a help option |
| SayCli.SayArgsHelp | libpiper/say.cpp:93-96 | the argument loop shows help exactly when it stops on a help option, whatever options came before |
| SayCli.SinkOf | libpiper/say.cpp:198-229 | playback wins over standard output, which wins over the output file; the audio is dropped exactly when none is chosen |
| SayCli.SayText | libpiper/say.cpp:155-172 | the text is empty only when an input file or standard input is empty; text read from standard input is that input, ending with a line feed |
| SayCli.SayPlan | libpiper/say.cpp:93-229 | help exits with 0 exactly when parsing asked for it, every other exit is 1, and the config path is the model path plus `.json` |
| SayCli.SayMain | libpiper/say.cpp:93-229 | `main` up to synthesis computes exactly `SayPlan`: help, missing model, playback without PulseAudio, unopenable input, or synthesis |
| SayCli.ModelRequired | libpiper/say.cpp:140-144 | a parse without a model exits with 1; a synthesis has a model and paths `<dir><model>.onnx` and `.onnx.json` |
| SayCli.StdinOnlyWithoutOtherText | libpiper/say.cpp:155-172 | the input file wins over the text, and standard input is read exactly when neither was given |
| SayCli.LastModelWins | libpiper/say.cpp:97-98 | `-m a -m b` selects `b` |
| SayCli.FileDefaultBeforeOption | libpiper/say.cpp:101-108 | `-f` followed by a dash argument writes to `output.raw`, and the dash argument is still parsed |
| SayCli.TextAfterDoubleDash | libpiper/say.cpp:116-125 | everything after `--` is the text, joined with single spaces |
| SayCli.TokensAtDoubleDash | libpiper/say.cpp:116-125 | `--` ends the options and takes the rest of the command line |
| SayCli.TokensAtModel | libpiper/say.cpp:97-98 | `-m` takes the next argument |
| SayCli.TextSwallowsLaterOptions | libpiper/say.cpp:126-135 | the first free word starts the text, which takes in later options too, so `word -m m` has no model and exits with 1 |
| SayCli.HelpStopsParsing | libpiper/say.cpp:94-96 | help after any mix of flags without arguments exits with 0 |
| SayCli.OutputRawNeedsDash | libpiper/say.cpp:109-113 | `--output-raw` writes to standard output only when followed by `-`, which it consumes; otherwise it is ignored |
| PiperCli.Tokens | libpiper/piper.cpp:88-103 | at most one token per argument, and help and the text after `--` can only be the last token |
| PiperCli.Step | libpiper/piper.cpp:88-103 | a help or skipped argument changes nothing, and each variable is changed only by its own option |
| PiperCli.TokensCoverArguments | libpiper/piper.cpp:88-103 | the tokens use the arguments in order, each one once, and stop before the end only after a help option or after `--` and its argument |
| PiperCli.ParsePiperArgs | libpiper/piper.cpp:88-103 | the argument loop computes exactly the fold of `Step` over the tokens |
| PiperCli.ApplyHelp | libpiper/piper.cpp:90-92 | the fold shows help exactly when one of its tokens is a help option |
| PiperCli.PiperArgsHelp | libpiper/piper.cpp:88-92 | the argument loop shows help exactly when it stops on a help option |
| PiperCli.PiperPlan | libpiper/piper.cpp:75-160 | help exits with 0 exactly when parsing asked for it, the only other exit is 1 for a missing model, the config path is the model path plus `.json`, and the audio goes to standard output or the output file |
| PiperCli.PiperMain | libpiper/piper.cpp:75-160 | `main` up to synthesis computes exactly `PiperPlan` |
| PiperCli.PlanShape | libpiper/piper.cpp:106-160 | a synthesis has a model; the sink is standard output exactly after `--output-raw`, and otherwise the output file; the text is the `--` argument, or standard input when that is empty |
| PiperCli.OutputFileDefault | libpiper/piper.cpp:77-96 | without `-f`, or with `-f` only as the last argument (which is skipped), the output file stays `output.raw` |
| PiperCli.LongModelOptionSkipped | libpiper/piper.cpp:93-94 | `--model name` is not recognised (only `-m` is), and neither is a trailing `-m`, so both exit with 1 for the missing model |
| PiperCli.SkipUnknown | libpiper/piper.cpp:88-103 | an unrecognised argument is skipped, as if it were absent |
| PiperCli.TokensShift | libpiper/piper.cpp:88-103 | tokenising depends only on the remaining arguments |
| PiperCli.DashAfterOutputRawSkipped | libpiper/piper.cpp:97-98 | `--output-raw` takes no argument; a `-` after it is skipped |
| PiperCli.OneArgumentAfterDoubleDash | libpiper/piper.cpp:99-102 | `--` takes one argument as the whole text and ignores the rest |
| PiperCli.TokensAtDoubleDash | libpiper/piper.cpp:99-102 | `--` with an argument ends the options |
| PiperCli.TokensAtModel | libpiper/piper.cpp:93-94 | `-m` takes the next argument |
| PiperCli.EmptyTextReadsStdin | libpiper/piper.cpp:99-122 | `-- ""` and a trailing `--` both leave the text empty, so standard input is read |

## Left out

- Synthesis and audio output are not modelled: `piper_create` and its failure, the synthesize loop, PulseAudio's `pa_simple_new` and its failure, and writing to a file or standard output. Opening the output file and its failure are also left out. The model stops at the `Run` value that describes them.
- UTF-8 to UTF-32 conversion in `clean_text.cpp` is not modelled: `Clean` works on code points. `main` in `clean_text.cpp` is not modelled either: it only reads `argv[1]`, sets up the Windows console and prints.
- `std::regex` is modelled only for the one pattern `cleanText` uses. `\s` is the six C-locale white-space characters.
- Paths are not modelled as `pathlib` objects. In `download_voices.py`, `download_dir / name` is the pair `LocalPath(dir, fileName)`, not joined text. In `say.cpp` and `piper.cpp`, the model paths are text: the model directory, which always ends with `/`, followed by the model name and its extension. `pathlib`'s handling of an absolute file name, which replaces the directory, is not modelled.
- The C strings of `say.cpp` and `piper.cpp`, and the lines the getline loop reads, are Dafny strings of Unicode characters rather than bytes. No behaviour changes, because those programs only compare with ASCII text and split at `\n`.
- Floating-point numbers are reals: rounding, and `-0.0 or 0.0` giving `0.0`, are not modelled.
- `int()` and `float()` are parameters of the model, not definitions.
- `getenv` is a map given to the model; `create_app_from_env` and the Flask application are not part of this model.
- The network is left out: `urlopen` is a sequence of chunks and a fetch decision. `list_voices`, the argparse `main` of `download_voices.py`, the progress logging and `Content-Length` are left out.
- `piper-speak` and `src/piper/train/__main__.py` are not part of this model. Neither are the espeakbridge terminators, the WAV header, and the installation and espeakbridge tests.
- The usage text and error messages on standard error are not modelled. Only the exit codes and the reasons are.
- Reading the input file in `say.cpp` is modelled as a lookup in a map of readable files. A file missing from the map cannot be opened.
- `ENABLE_PULSEAUDIO` is a build flag, modelled as the `Host.pulseAudio` parameter.
