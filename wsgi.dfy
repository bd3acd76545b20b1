/**
 * src/piper/wsgi.py: building the HTTP server's `AppArgs` from `PIPER_*`
 * environment variables. The environment lookup, Python's `int()` and
 * `float()` and the current directory are parameters; a conversion that
 * raises `ValueError` is a `None` from the parser.
 */
module Wsgi {
  import opened Common
  import opened Strings

  /** The process environment as `get_env` sees it: a name is unset, or set to `None`, or to a text. */
  type Env = map<string, Option<string>>

  const PIPER_MODEL := "PIPER_MODEL"
  const PIPER_SPEAKER := "PIPER_SPEAKER"
  const PIPER_LENGTH_SCALE := "PIPER_LENGTH_SCALE"
  const PIPER_NOISE_SCALE := "PIPER_NOISE_SCALE"
  const PIPER_NOISE_W_SCALE := "PIPER_NOISE_W_SCALE"
  const PIPER_CUDA := "PIPER_CUDA"
  const PIPER_SENTENCE_SILENCE := "PIPER_SENTENCE_SILENCE"
  const PIPER_DATA_DIR := "PIPER_DATA_DIR"
  const PIPER_DOWNLOAD_DIR := "PIPER_DOWNLOAD_DIR"
  const PIPER_DEBUG := "PIPER_DEBUG"

  /** `get_env(name)`, as `dict.get` does it: `None` for a name that is not there. */
  function GetEnv(env: Env, name: string): Option<string>
  {
    if name in env then env[name] else None
  }

  /** The `ValueError`s `create_app_args_from_env` can raise. */
  datatype ValueError =
    | MustBeSet                   // `require` of an unset value
    | InvalidLiteral(text: string) // `int(text)` or `float(text)` refused the text

  /** The server's settings (`AppArgs` of the HTTP server), floats as reals. */
  datatype AppArgs = AppArgs(
    model: string,
    speaker: Option<int>,
    lengthScale: Option<real>,
    noiseScale: Option<real>,
    noiseWScale: Option<real>,
    cuda: bool,
    sentenceSilence: real,
    dataDir: seq<string>,
    downloadDir: Option<string>,
    debug: bool)

  /** `map_if_not_none(mapper, value)` where `mapper` may raise `ValueError` (a `None` here). */
  function MapIfNotNone<U(==)>(mapper: string -> Option<U>, value: Option<string>): (r: Result<Option<U>, ValueError>)
    ensures value.None? ==> r == Success(None)
    ensures value.Some? && mapper(value.value).Some? ==> r == Success(Some(mapper(value.value).value))
    ensures value.Some? && mapper(value.value).None? ==> r == Failure(InvalidLiteral(value.value))
  {
    match value
    case None => Success(None)
    case Some(text) =>
      match mapper(text)
      case None => Failure(InvalidLiteral(text))
      case Some(u) => Success(Some(u))
  }

  /** `require(value)`: the value, or `ValueError("Must be set.")` when it is `None`. */
  function Require<T>(value: Option<T>): (r: Result<T, ValueError>)
    ensures r.Failure? <==> value.None?
    ensures r.Failure? ==> r.error == MustBeSet
    ensures r.Success? ==> value == Some(r.value)
  {
    match value
    case None => Failure(MustBeSet)
    case Some(v) => Success(v)
  }

  /** `x or 0.0` for an optional float: a missing value is 0.0. */
  function OrZero(x: Option<real>): real
  {
    match x
    case None => 0.0
    case Some(v) => v
  }

  /**
   * `[d for d in (raw or "").split(":") if d] or [cwd]`: the non-empty
   * colon-separated entries of the variable, or the current directory when
   * there are none.
   */
  function DataDirs(raw: Option<string>, cwd: string): (dirs: seq<string>)
    ensures |dirs| >= 1
    ensures dirs == [cwd] || forall k :: 0 <= k < |dirs| ==> dirs[k] != [] && ':' !in dirs[k]
  {
    var text := match raw case None => "" case Some(t) => t;
    var entries := NonEmpty(SplitOn(text, ':'));
    if entries == [] then [cwd] else entries
  }

  /** `get_env(name) == "True"`: only that exact text switches a flag on. */
  predicate Flag(env: Env, name: string)
    ensures Flag(env, name) <==> name in env && env[name] == Some("True")
  {
    GetEnv(env, name) == Some("True")
  }

  /**
   * `create_app_args_from_env`: the arguments of `AppArgs` are evaluated in
   * order, so the first one that raises decides the error.
   */
  function CreateAppArgsFromEnv(env: Env, cwd: string,
                                parseInt: string -> Option<int>,
                                parseFloat: string -> Option<real>): (r: Result<AppArgs, ValueError>)
    ensures r.Success? ==> GetEnv(env, PIPER_MODEL) == Some(r.value.model)
    ensures r.Success? ==> r.value.downloadDir == GetEnv(env, PIPER_DOWNLOAD_DIR)
    ensures r.Success? ==> (r.value.cuda <==> Flag(env, PIPER_CUDA)) && (r.value.debug <==> Flag(env, PIPER_DEBUG))
  {
    var model := Require(GetEnv(env, PIPER_MODEL));
    var speaker := MapIfNotNone(parseInt, GetEnv(env, PIPER_SPEAKER));
    var lengthScale := MapIfNotNone(parseFloat, GetEnv(env, PIPER_LENGTH_SCALE));
    var noiseScale := MapIfNotNone(parseFloat, GetEnv(env, PIPER_NOISE_SCALE));
    var noiseWScale := MapIfNotNone(parseFloat, GetEnv(env, PIPER_NOISE_W_SCALE));
    var silence := MapIfNotNone(parseFloat, GetEnv(env, PIPER_SENTENCE_SILENCE));
    if model.Failure? then Failure(model.error)
    else if speaker.Failure? then Failure(speaker.error)
    else if lengthScale.Failure? then Failure(lengthScale.error)
    else if noiseScale.Failure? then Failure(noiseScale.error)
    else if noiseWScale.Failure? then Failure(noiseWScale.error)
    else if silence.Failure? then Failure(silence.error)
    else
      Success(AppArgs(
        model := model.value,
        speaker := speaker.value,
        lengthScale := lengthScale.value,
        noiseScale := noiseScale.value,
        noiseWScale := noiseWScale.value,
        cuda := Flag(env, PIPER_CUDA),
        sentenceSilence := OrZero(silence.value),
        dataDir := DataDirs(GetEnv(env, PIPER_DATA_DIR), cwd),
        downloadDir := GetEnv(env, PIPER_DOWNLOAD_DIR),
        debug := Flag(env, PIPER_DEBUG)))
  }

  /** A variable that is unset, or set to a text the parser accepts. */
  predicate Parses<U>(env: Env, name: string, parse: string -> Option<U>)
  {
    GetEnv(env, name).None? || parse(GetEnv(env, name).value).Some?
  }

  /** The optional value of a variable: absent when unset, the parsed value when set. */
  predicate ParsedAs<U(==)>(env: Env, name: string, parse: string -> Option<U>, value: Option<U>)
  {
    match GetEnv(env, name)
    case None => value.None?
    case Some(text) => value.Some? && parse(text) == Some(value.value)
  }

  /**
   * Building the arguments fails exactly when `PIPER_MODEL` is unset or a
   * numeric variable is set to a text its conversion refuses.
   */
  lemma FailsExactlyWhen(env: Env, cwd: string, parseInt: string -> Option<int>, parseFloat: string -> Option<real>)
    ensures var r := CreateAppArgsFromEnv(env, cwd, parseInt, parseFloat);
      r.Failure? <==>
        (|| GetEnv(env, PIPER_MODEL).None?
         || !Parses(env, PIPER_SPEAKER, parseInt)
         || !Parses(env, PIPER_LENGTH_SCALE, parseFloat)
         || !Parses(env, PIPER_NOISE_SCALE, parseFloat)
         || !Parses(env, PIPER_NOISE_W_SCALE, parseFloat)
         || !Parses(env, PIPER_SENTENCE_SILENCE, parseFloat))
  {
  }

  /** An unset model is reported before any conversion error. */
  lemma ModelCheckedFirst(env: Env, cwd: string, parseInt: string -> Option<int>, parseFloat: string -> Option<real>)
    requires GetEnv(env, PIPER_MODEL).None?
    ensures CreateAppArgsFromEnv(env, cwd, parseInt, parseFloat) == Failure(MustBeSet)
  {
  }

  /**
   * On success every numeric setting is absent exactly when its variable is
   * unset and is otherwise what the conversion made of the text; the
   * sentence silence defaults to 0.0.
   */
  lemma NumericSettings(env: Env, cwd: string, parseInt: string -> Option<int>, parseFloat: string -> Option<real>)
    requires CreateAppArgsFromEnv(env, cwd, parseInt, parseFloat).Success?
    ensures var a := CreateAppArgsFromEnv(env, cwd, parseInt, parseFloat).value;
      && ParsedAs(env, PIPER_SPEAKER, parseInt, a.speaker)
      && ParsedAs(env, PIPER_LENGTH_SCALE, parseFloat, a.lengthScale)
      && ParsedAs(env, PIPER_NOISE_SCALE, parseFloat, a.noiseScale)
      && ParsedAs(env, PIPER_NOISE_W_SCALE, parseFloat, a.noiseWScale)
      && (GetEnv(env, PIPER_SENTENCE_SILENCE).None? ==> a.sentenceSilence == 0.0)
      && (GetEnv(env, PIPER_SENTENCE_SILENCE).Some? ==>
            parseFloat(GetEnv(env, PIPER_SENTENCE_SILENCE).value) == Some(a.sentenceSilence))
  {
  }

  /**
   * A data directory list written with single colons and no empty entries
   * is read back entry for entry; an unset, empty or all-colon variable gives
   * the current directory alone.
   */
  lemma {:induction false} DataDirsRoundTrip(dirs: seq<string>, cwd: string)
    requires |dirs| >= 1
    requires forall k :: 0 <= k < |dirs| ==> dirs[k] != [] && ':' !in dirs[k]
    ensures DataDirs(Some(JoinWith(dirs, ':')), cwd) == dirs
  {
    SplitJoin(dirs, ':');
    NonEmptyKeepsAll(dirs);
  }

  lemma {:induction false} NonEmptyKeepsAll(parts: seq<string>)
    requires forall k :: 0 <= k < |parts| ==> parts[k] != []
    ensures NonEmpty(parts) == parts
    decreases |parts|
  {
    if |parts| > 0 {
      NonEmptyKeepsAll(parts[1..]);
    }
  }

  /** Without any non-empty entry the list is the current directory. */
  lemma {:induction false} DataDirsDefault(raw: Option<string>, cwd: string)
    requires raw.None? || forall k :: 0 <= k < |raw.value| ==> raw.value[k] == ':'
    ensures DataDirs(raw, cwd) == [cwd]
  {
    var text := match raw case None => "" case Some(t) => t;
    NoEntries(text);
  }

  lemma {:induction false} NoEntries(text: string)
    requires forall k :: 0 <= k < |text| ==> text[k] == ':'
    ensures NonEmpty(SplitOn(text, ':')) == []
    decreases |text|
  {
    if |text| > 0 {
      NoEntries(text[1..]);
    }
  }

  // ---------------------------------------------------------------------------
  // The cases of tests/test_wsgi.py

  /** `full_env` of the tests. */
  const FULL_ENV: Env := map[
    PIPER_MODEL := Some("some/model"),
    PIPER_SPEAKER := Some("42"),
    PIPER_LENGTH_SCALE := Some("1.421"),
    PIPER_NOISE_SCALE := Some("1.422"),
    PIPER_NOISE_W_SCALE := Some("1.423"),
    PIPER_CUDA := Some("True"),
    PIPER_SENTENCE_SILENCE := Some("0.42"),
    PIPER_DATA_DIR := Some("some/dir:other/dir"),
    PIPER_DOWNLOAD_DIR := Some("download/dir"),
    PIPER_DEBUG := Some("True")]

  /** `full_app_args`. */
  const FULL_APP_ARGS := AppArgs("some/model", Some(42), Some(1.421), Some(1.422), Some(1.423), true, 0.42,
                                 ["some/dir", "other/dir"], Some("download/dir"), true)

  /** `minimum_env`: only the required variable. */
  const MINIMUM_ENV: Env := map[PIPER_MODEL := Some("some/model")]

  /** `minimum_args_params`: the model, and every optional setting at its default. */
  function MinimumArgs(cwd: string): AppArgs
  {
    AppArgs("some/model", None, None, None, None, false, 0.0, [cwd], None, false)
  }

  /** The variables of `optional_args`, through `to_env_var`. */
  const OPTIONAL_VARIABLES := {PIPER_SPEAKER, PIPER_LENGTH_SCALE, PIPER_NOISE_SCALE, PIPER_NOISE_W_SCALE, PIPER_CUDA,
                               PIPER_SENTENCE_SILENCE, PIPER_DATA_DIR, PIPER_DOWNLOAD_DIR, PIPER_DEBUG}

  /** `args | {optional_arg: full_app_args.__dict__[optional_arg]}` for the setting read from `name`. */
  function WithFullSetting(a: AppArgs, name: string): AppArgs
  {
    if name == PIPER_SPEAKER then a.(speaker := FULL_APP_ARGS.speaker)
    else if name == PIPER_LENGTH_SCALE then a.(lengthScale := FULL_APP_ARGS.lengthScale)
    else if name == PIPER_NOISE_SCALE then a.(noiseScale := FULL_APP_ARGS.noiseScale)
    else if name == PIPER_NOISE_W_SCALE then a.(noiseWScale := FULL_APP_ARGS.noiseWScale)
    else if name == PIPER_CUDA then a.(cuda := FULL_APP_ARGS.cuda)
    else if name == PIPER_SENTENCE_SILENCE then a.(sentenceSilence := FULL_APP_ARGS.sentenceSilence)
    else if name == PIPER_DATA_DIR then a.(dataDir := FULL_APP_ARGS.dataDir)
    else if name == PIPER_DOWNLOAD_DIR then a.(downloadDir := FULL_APP_ARGS.downloadDir)
    else if name == PIPER_DEBUG then a.(debug := FULL_APP_ARGS.debug)
    else a
  }

  /**
   * `test_create_app_args_from_env_succeeds_for_each_optional_arg`: the
   * minimal environment plus any one optional variable of `full_env` gives
   * the minimal arguments with just that setting taken from `full_app_args`.
   */
  lemma EachOptionalVariable(cwd: string, parseInt: string -> Option<int>, parseFloat: string -> Option<real>,
                             name: string)
    requires ConvertsFullEnv(parseInt, parseFloat)
    requires name in OPTIONAL_VARIABLES
    ensures CreateAppArgsFromEnv(MINIMUM_ENV[name := FULL_ENV[name]], cwd, parseInt, parseFloat) ==
      Success(WithFullSetting(MinimumArgs(cwd), name))
  {
    FullEnvLookups();
    if name == PIPER_DATA_DIR {
      FullEnvDataDirs(cwd);
    } else {
      DataDirsDefault(None, cwd);
    }
  }

  /** What Python's `int()` and `float()` make of the texts of `full_env`. */
  predicate ConvertsFullEnv(parseInt: string -> Option<int>, parseFloat: string -> Option<real>)
  {
    && parseInt("42") == Some(42)
    && parseFloat("1.421") == Some(1.421)
    && parseFloat("1.422") == Some(1.422)
    && parseFloat("1.423") == Some(1.423)
    && parseFloat("0.42") == Some(0.42)
  }

  /** The full environment gives `full_app_args`. */
  lemma FullEnvironment(cwd: string, parseInt: string -> Option<int>, parseFloat: string -> Option<real>)
    requires ConvertsFullEnv(parseInt, parseFloat)
    ensures CreateAppArgsFromEnv(FULL_ENV, cwd, parseInt, parseFloat) == Success(FULL_APP_ARGS)
  {
    FullEnvLookups();
    FullEnvDataDirs(cwd);
  }

  /** `PIPER_DATA_DIR` of `full_env` names two directories. */
  lemma FullEnvDataDirs(cwd: string)
    ensures DataDirs(Some("some/dir:other/dir"), cwd) == ["some/dir", "other/dir"]
  {
    assert "some/dir:other/dir" == JoinWith(["some/dir", "other/dir"], ':');
    DataDirsRoundTrip(["some/dir", "other/dir"], cwd);
  }

  /** What `get_env` reads from `full_env`. */
  lemma FullEnvLookups()
    ensures GetEnv(FULL_ENV, PIPER_MODEL) == Some("some/model")
    ensures GetEnv(FULL_ENV, PIPER_SPEAKER) == Some("42")
    ensures GetEnv(FULL_ENV, PIPER_LENGTH_SCALE) == Some("1.421")
    ensures GetEnv(FULL_ENV, PIPER_NOISE_SCALE) == Some("1.422")
    ensures GetEnv(FULL_ENV, PIPER_NOISE_W_SCALE) == Some("1.423")
    ensures GetEnv(FULL_ENV, PIPER_SENTENCE_SILENCE) == Some("0.42")
    ensures Flag(FULL_ENV, PIPER_CUDA) && Flag(FULL_ENV, PIPER_DEBUG)
    ensures GetEnv(FULL_ENV, PIPER_DATA_DIR) == Some("some/dir:other/dir")
    ensures GetEnv(FULL_ENV, PIPER_DOWNLOAD_DIR) == Some("download/dir")
  {
  }

  /** Only the model set: every optional setting takes its default. */
  lemma MinimalEnvironment(cwd: string, parseInt: string -> Option<int>, parseFloat: string -> Option<real>)
    ensures CreateAppArgsFromEnv(MINIMUM_ENV, cwd, parseInt, parseFloat) == Success(MinimumArgs(cwd))
  {
    DataDirsDefault(None, cwd);
  }

  /** The model mapped to `None` is refused with "Must be set.". */
  lemma MissingModel(cwd: string, parseInt: string -> Option<int>, parseFloat: string -> Option<real>)
    ensures CreateAppArgsFromEnv(map[PIPER_MODEL := None], cwd, parseInt, parseFloat) == Failure(MustBeSet)
  {
  }

  /**
   * `broken_env`: the full environment with one numeric variable set to a
   * text its conversion refuses raises `ValueError` for that text.
   */
  lemma BrokenVariable(cwd: string, parseInt: string -> Option<int>, parseFloat: string -> Option<real>,
                       name: string, text: string)
    requires ConvertsFullEnv(parseInt, parseFloat)
    requires name in {PIPER_SPEAKER, PIPER_LENGTH_SCALE, PIPER_NOISE_SCALE, PIPER_NOISE_W_SCALE, PIPER_SENTENCE_SILENCE}
    requires name == PIPER_SPEAKER ==> parseInt(text).None?
    requires name != PIPER_SPEAKER ==> parseFloat(text).None?
    ensures CreateAppArgsFromEnv(FULL_ENV[name := Some(text)], cwd, parseInt, parseFloat) == Failure(InvalidLiteral(text))
  {
  }
}
