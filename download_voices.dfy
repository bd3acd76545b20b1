/**
 * The deterministic part of src/piper/download_voices.py: splitting a voice
 * name such as `en_US-lessac-medium` with `VOICE_PATTERN`, deriving the voice
 * code, the two local file names and the two Hugging Face URLs from it,
 * deciding which files to fetch, and the loop that copies a response into a
 * file. The network, the file system and logging are parameters or left out.
 */
module DownloadVoices {
  import opened Common
  import opened Strings

  /** `URL_FORMAT` up to its first field, and after its last one. */
  const URL_PREFIX := "https://huggingface.co/rhasspy/piper-voices/resolve/main/"
  const URL_SUFFIX := "?download=true"

  const MODEL_EXTENSION := ".onnx"
  const CONFIG_EXTENSION := ".onnx.json"

  // ---------------------------------------------------------------------------
  // str.strip()

  /** The characters Python's `str.isspace` accepts, which `str.strip()` removes. */
  predicate IsPySpace(c: char)
  {
    var n := c as int;
    (0x09 <= n <= 0x0D) || (0x1C <= n <= 0x20) || n == 0x85 || n == 0xA0 || n == 0x1680 ||
    (0x2000 <= n <= 0x200A) || n == 0x2028 || n == 0x2029 || n == 0x202F || n == 0x205F ||
    n == 0x3000
  }

  /** Index of the first character at or after `i` that is not white space, or `|s|`. */
  function SkipSpace(s: string, i: nat): (j: nat)
    requires i <= |s|
    ensures i <= j <= |s|
    ensures forall k :: i <= k < j ==> IsPySpace(s[k])
    ensures j < |s| ==> !IsPySpace(s[j])
    decreases |s| - i
  {
    if i < |s| && IsPySpace(s[i]) then SkipSpace(s, i + 1) else i
  }

  /** Moves the end `e` back over white space, but not below `lo`. */
  function TrimEnd(s: string, lo: nat, e: nat): (j: nat)
    requires lo <= e <= |s|
    ensures lo <= j <= e
    ensures forall k :: j <= k < e ==> IsPySpace(s[k])
    ensures j > lo ==> !IsPySpace(s[j - 1])
    decreases e
  {
    if e > lo && IsPySpace(s[e - 1]) then TrimEnd(s, lo, e - 1) else e
  }

  /** Where `str.strip()` cuts: the first character that is not white space, and one past the last. */
  function StripStart(s: string): nat
  {
    SkipSpace(s, 0)
  }

  function StripEnd(s: string): nat
  {
    TrimEnd(s, SkipSpace(s, 0), |s|)
  }

  /** `str.strip()`: skip white space from the left, then from the right down to where the left scan stopped. */
  function Strip(s: string): (r: string)
    ensures |r| <= |s|
    ensures |r| > 0 ==> !IsPySpace(r[0]) && !IsPySpace(r[|r| - 1])
  {
    s[StripStart(s)..StripEnd(s)]
  }

  /**
   * `strip()` takes a piece out of the middle of `s`: the text after its
   * leading and before its trailing white space; the piece neither starts
   * nor ends with white space.
   */
  lemma StripIsPiece(s: string)
    ensures var r := Strip(s); var a := StripStart(s);
      && (|r| == 0 || (!IsPySpace(r[0]) && !IsPySpace(r[|r| - 1])))
      && a + |r| <= |s| && r == s[a..a + |r|]
  {
    var a := StripStart(s);
    var b := StripEnd(s);
    var r := s[a..b];
    if a < b {
      assert r[0] == s[a];
      assert r[|r| - 1] == s[b - 1];
    }
  }

  /** What `strip()` removes, on either side of the piece it keeps, is all white space. */
  lemma StripRemovesOnlySpace(s: string)
    ensures var r := Strip(s); var a := StripStart(s);
      && (forall k :: 0 <= k < a ==> IsPySpace(s[k]))
      && (forall k :: a + |r| <= k < |s| ==> IsPySpace(s[k]))
  {
  }

  /** Text that neither starts nor ends with white space is left as it is; so stripping twice is stripping once. */
  lemma StripKeepsStripped(s: string)
    ensures (|s| == 0 || (!IsPySpace(s[0]) && !IsPySpace(s[|s| - 1]))) ==> Strip(s) == s
    ensures Strip(Strip(s)) == Strip(s)
  {
    var r := Strip(s);
    assert |r| == 0 || (!IsPySpace(r[0]) && !IsPySpace(r[|r| - 1])) by {
      StripIsPiece(s);
    }
  }

  // ---------------------------------------------------------------------------
  // VOICE_PATTERN = ^(?P<lang_family>[^-]+)_(?P<lang_region>[^-]+)-(?P<voice_name>[^-]+)-(?P<voice_quality>.+)$

  /** The four named groups of a successful match. */
  datatype VoiceMatch = VoiceMatch(langFamily: string, langRegion: string, voiceName: string, voiceQuality: string)

  /** Index of the first `c` in `s`, or `|s|` when there is none. */
  function IndexOf(s: string, c: char): (k: nat)
    ensures k <= |s|
    ensures forall j :: 0 <= j < k ==> s[j] != c
    ensures k < |s| ==> s[k] == c
    decreases |s|
  {
    if |s| == 0 || s[0] == c then 0 else 1 + IndexOf(s[1..], c)
  }

  /**
   * Where the greedy `[^-]+` of the family group ends inside the first
   * hyphen-free segment `seg`: the last `_` that leaves a non-empty family
   * before it and a non-empty region after it, or 0 when there is none.
   */
  function FamilyEnd(seg: string): (p: nat)
    ensures p == 0 || (1 <= p <= |seg| - 2 && seg[p] == '_')
    ensures forall q :: 1 <= q <= |seg| - 2 && p < q ==> seg[q] != '_'
    decreases |seg|
  {
    if |seg| < 3 then 0
    else if seg[|seg| - 2] == '_' then |seg| - 2
    else FamilyEnd(seg[..|seg| - 1])
  }

  /** Family and region, split out of the hyphen-free text before the first `-`. */
  function MatchLang(seg: string): Option<(string, string)>
  {
    var p := FamilyEnd(seg);
    if p == 0 then None else Some((seg[..p], seg[p + 1..]))
  }

  /**
   * The quality group followed by `$`: what is left, less one final line feed
   * (`$` matches before it), must be non-empty and free of line feeds (`.`
   * does not match one).
   */
  function MatchQuality(tail: string): Option<string>
  {
    var quality := if |tail| > 0 && tail[|tail| - 1] == '\n' then tail[..|tail| - 1] else tail;
    if |quality| == 0 || '\n' in quality then None else Some(quality)
  }

  /** Name and quality, split out of the text after the first `-`: the name ends at the next `-`. */
  function MatchNameQuality(rest: string): Option<(string, string)>
  {
    var d2 := IndexOf(rest, '-');
    if d2 == 0 || d2 == |rest| then None
    else match MatchQuality(rest[d2 + 1..])
      case None => None
      case Some(quality) => Some((rest[..d2], quality))
  }

  /**
   * `VOICE_PATTERN.match(s)`. The first three groups cannot contain `-`, so
   * the region ends at the first hyphen and the name at the second;
   * backtracking only moves the end of the family back to the last usable `_`.
   */
  function MatchVoice(s: string): (r: Option<VoiceMatch>)
    ensures '-' !in s ==> r.None?
  {
    var d1 := IndexOf(s, '-');
    if d1 == |s| then None
    else match (MatchLang(s[..d1]), MatchNameQuality(s[d1 + 1..]))
      case (Some(lang), Some(nameQuality)) =>
        Some(VoiceMatch(lang.0, lang.1, nameQuality.0, nameQuality.1))
      case _ => None
  }

  /** `lang_code = lang_family + "_" + lang_region`. */
  function LangCode(m: VoiceMatch): string
  {
    m.langFamily + "_" + m.langRegion
  }

  /** `voice_code = f"{lang_code}-{voice_name}-{voice_quality}"`. */
  function VoiceCode(m: VoiceMatch): string
  {
    LangCode(m) + "-" + m.voiceName + "-" + m.voiceQuality
  }

  /** A family and region the greedy family group splits apart: no `_` in the region but at its end. */
  predicate LangGroups(family: string, region: string)
  {
    |family| > 0 && |region| > 0 && forall j :: 0 <= j < |region| - 1 ==> region[j] != '_'
  }

  /** A quality the pattern accepts. */
  predicate QualityGroup(quality: string)
  {
    |quality| > 0 && '\n' !in quality
  }

  /**
   * The groups the pattern can produce: family, region and name non-empty and
   * free of `-`; quality non-empty and free of line feeds (it may contain `-`);
   * and, family being greedy, no `_` in the region before its last character.
   */
  predicate WellFormed(m: VoiceMatch)
  {
    && LangGroups(m.langFamily, m.langRegion)
    && '-' !in m.langFamily && '-' !in m.langRegion
    && |m.voiceName| > 0 && '-' !in m.voiceName
    && QualityGroup(m.voiceQuality)
  }

  lemma LangSound(seg: string)
    requires MatchLang(seg).Some?
    ensures var (family, region) := MatchLang(seg).value;
      LangGroups(family, region) && seg == family + "_" + region
    ensures var (family, region) := MatchLang(seg).value;
      '-' !in seg ==> '-' !in family && '-' !in region
  {
    var p := FamilyEnd(seg);
    var region := seg[p + 1..];
    forall j | 0 <= j < |region| - 1
      ensures region[j] != '_'
    {
      assert region[j] == seg[p + 1 + j];
    }
    assert seg == seg[..p] + "_" + region;
    if '-' !in seg {
      NotInParts('-', seg[..p], "_", region);
    }
  }

  /** In `family + "_" + region`, the family group ends right before that `_`. */
  lemma LangComplete(family: string, region: string)
    requires LangGroups(family, region)
    ensures MatchLang(family + "_" + region) == Some((family, region))
  {
    var seg := family + "_" + region;
    var p := FamilyEnd(seg);
    assert seg[|family|] == '_';
    assert seg[..|family|] == family;
    assert seg[|family| + 1..] == region;
  }

  lemma QualitySound(tail: string)
    requires MatchQuality(tail).Some?
    ensures var quality := MatchQuality(tail).value;
      QualityGroup(quality) && (tail == quality || tail == quality + "\n")
  {
    if |tail| > 0 && tail[|tail| - 1] == '\n' {
      DropLast(tail);
    }
  }

  lemma QualityComplete(quality: string, end: string)
    requires QualityGroup(quality)
    requires end == "" || end == "\n"
    ensures MatchQuality(quality + end) == Some(quality)
  {
    var tail := quality + end;
    if end == "\n" {
      assert tail[..|tail| - 1] == quality;
    } else {
      assert tail == quality;
    }
  }

  lemma NameQualitySound(rest: string)
    requires MatchNameQuality(rest).Some?
    ensures var (name, quality) := MatchNameQuality(rest).value;
      |name| > 0 && '-' !in name && QualityGroup(quality) &&
      (rest == name + "-" + quality || rest == name + "-" + quality + "\n")
  {
    var d2 := IndexOf(rest, '-');
    QualitySound(rest[d2 + 1..]);
    NotInPrefix(rest, '-', d2);
    CutAt(rest, d2);
  }

  lemma NameQualityComplete(name: string, quality: string, end: string)
    requires |name| > 0 && '-' !in name && QualityGroup(quality)
    requires end == "" || end == "\n"
    ensures MatchNameQuality(name + "-" + quality + end) == Some((name, quality))
  {
    var rest := name + "-" + quality + end;
    IndexOfAt(rest, name, '-');
    assert rest[..|name|] == name;
    assert rest[|name| + 1..] == quality + end;
    QualityComplete(quality, end);
  }

  /** Every match has well-formed groups, and they spell the matched text back (up to a final line feed). */
  lemma MatchSound(s: string)
    requires MatchVoice(s).Some?
    ensures WellFormed(MatchVoice(s).value)
    ensures var code := VoiceCode(MatchVoice(s).value); s == code || s == code + "\n"
  {
    MatchWellFormed(s);
    MatchSpells(s);
  }

  /** A match is put together from the matches of the text before and after the first `-`. */
  lemma MatchPieces(s: string)
    requires MatchVoice(s).Some?
    ensures var d1 := IndexOf(s, '-'); var m := MatchVoice(s).value;
      && d1 < |s|
      && MatchLang(s[..d1]) == Some((m.langFamily, m.langRegion))
      && MatchNameQuality(s[d1 + 1..]) == Some((m.voiceName, m.voiceQuality))
  {
    var d1 := IndexOf(s, '-');
    var lang := MatchLang(s[..d1]);
    var nameQuality := MatchNameQuality(s[d1 + 1..]);
    assert lang.Some? && nameQuality.Some?;
    assert MatchVoice(s).value == VoiceMatch(lang.value.0, lang.value.1, nameQuality.value.0, nameQuality.value.1);
  }

  /** The language code of a match is the text before the first `-`. */
  lemma MatchLangCode(s: string)
    requires MatchVoice(s).Some?
    ensures LangCode(MatchVoice(s).value) == s[..IndexOf(s, '-')]
  {
    MatchPieces(s);
    LangSound(s[..IndexOf(s, '-')]);
  }

  lemma MatchWellFormed(s: string)
    requires MatchVoice(s).Some?
    ensures WellFormed(MatchVoice(s).value)
  {
    var d1 := IndexOf(s, '-');
    var m := MatchVoice(s).value;
    MatchPieces(s);
    NotInPrefix(s, '-', d1);
    LangSound(s[..d1]);
    assert MatchLang(s[..d1]).value == (m.langFamily, m.langRegion);
    NameQualitySound(s[d1 + 1..]);
    assert MatchNameQuality(s[d1 + 1..]).value == (m.voiceName, m.voiceQuality);
  }

  lemma MatchSpells(s: string)
    requires MatchVoice(s).Some?
    ensures var code := VoiceCode(MatchVoice(s).value); s == code || s == code + "\n"
  {
    var d1 := IndexOf(s, '-');
    MatchPieces(s);
    LangSound(s[..d1]);
    NameQualitySound(s[d1 + 1..]);
    CutAt(s, d1);
    Spell(s, s[..d1], s[d1 + 1..], MatchVoice(s).value);
  }

  /** Text put together from the pieces the pattern cut it into spells the voice code. */
  lemma Spell(s: string, seg: string, rest: string, m: VoiceMatch)
    requires s == seg + "-" + rest
    requires seg == m.langFamily + "_" + m.langRegion
    requires rest == m.voiceName + "-" + m.voiceQuality || rest == m.voiceName + "-" + m.voiceQuality + "\n"
    ensures s == VoiceCode(m) || s == VoiceCode(m) + "\n"
  {
  }

  /** Every well-formed set of groups is what the pattern extracts from its voice code. */
  lemma MatchComplete(m: VoiceMatch)
    requires WellFormed(m)
    ensures MatchVoice(VoiceCode(m)) == Some(m)
    ensures MatchVoice(VoiceCode(m) + "\n") == Some(m)
  {
    MatchCompleteWith(m, "");
    assert VoiceCode(m) + "" == VoiceCode(m);
    MatchCompleteWith(m, "\n");
  }

  lemma MatchCompleteWith(m: VoiceMatch, end: string)
    requires WellFormed(m)
    requires end == "" || end == "\n"
    ensures MatchVoice(VoiceCode(m) + end) == Some(m)
  {
    var seg := LangCode(m);
    var rest := m.voiceName + "-" + m.voiceQuality + end;
    var s := VoiceCode(m) + end;
    assert s == seg + "-" + rest;
    assert '-' !in seg;
    IndexOfAt(s, seg, '-');
    assert s[..|seg|] == seg;
    assert s[|seg| + 1..] == rest;
    LangComplete(m.langFamily, m.langRegion);
    NameQualityComplete(m.voiceName, m.voiceQuality, end);
  }

  /** The first `c` in `p + [c] + q` is right after `p` when `p` has none. */
  lemma IndexOfAt(s: string, p: string, c: char)
    requires |p| < |s| && s[..|p|] == p && s[|p|] == c && c !in p
    ensures IndexOf(s, c) == |p|
  {
  }

  /** The family is greedy: `a_b_c-x-y` gives family `a_b` and region `c`. */
  lemma GreedyFamilyExample()
    ensures MatchVoice("a_b_c-x-y") == Some(VoiceMatch("a_b", "c", "x", "y"))
  {
    var m := VoiceMatch("a_b", "c", "x", "y");
    assert WellFormed(m);
    assert VoiceCode(m) == "a_b_c-x-y";
    MatchComplete(m);
  }

  // ---------------------------------------------------------------------------
  // download_voice

  /** What is on disk at a path before the download: nothing, or a file of some size. */
  datatype FileState = Missing | Present(size: nat)

  /** `_needs_download`: the file is missing or empty. */
  predicate NeedsDownload(f: FileState)
    ensures NeedsDownload(f) <==> !(f.Present? && f.size > 0)
  {
    f.Missing? || f.size == 0
  }

  /** `download_dir / name`. */
  datatype LocalPath = LocalPath(dir: string, fileName: string)

  /** One `urlopen(url)` whose body is copied into `path`. */
  datatype Fetch = Fetch(url: string, path: LocalPath)

  /** The `ValueError` raised for a voice that does not match the pattern. */
  datatype DownloadError = PatternMismatch(voice: string)

  /** `URL_FORMAT.format(extension=extension, **format_args)`. */
  function VoiceUrl(m: VoiceMatch, extension: string): (url: string)
    ensures |URL_PREFIX| + |URL_SUFFIX| <= |url|
    ensures url[..|URL_PREFIX|] == URL_PREFIX && url[|url| - |URL_SUFFIX|..] == URL_SUFFIX
  {
    URL_PREFIX + m.langFamily + "/" + LangCode(m) + "/" + m.voiceName + "/" + m.voiceQuality + "/" +
    LangCode(m) + "-" + m.voiceName + "-" + m.voiceQuality + extension + URL_SUFFIX
  }

  /** The fetch of one file, when it is forced or the file needs one. */
  function FetchIfNeeded(m: VoiceMatch, downloadDir: string, extension: string,
                         forceRedownload: bool, state: FileState): (r: seq<Fetch>)
    ensures |r| <= 1
    ensures r != [] <==> forceRedownload || NeedsDownload(state)
    ensures r != [] ==> r[0].url == VoiceUrl(m, extension) && r[0].path.fileName == VoiceCode(m) + extension
  {
    if forceRedownload || NeedsDownload(state) then
      [Fetch(VoiceUrl(m, extension), LocalPath(downloadDir, VoiceCode(m) + extension))]
    else []
  }

  /**
   * `download_voice`: the voice is stripped and matched, then the model and
   * then the config are fetched, each only when forced or needed.
   */
  function DownloadVoice(voice: string, downloadDir: string, forceRedownload: bool,
                         model: FileState, config: FileState): (r: Result<seq<Fetch>, DownloadError>)
    ensures r.Failure? <==> MatchVoice(Strip(voice)).None?
    ensures r.Failure? ==> r.error == PatternMismatch(Strip(voice))
  {
    var stripped := Strip(voice);
    match MatchVoice(stripped)
    case None => Failure(PatternMismatch(stripped))
    case Some(m) =>
      Success(FetchIfNeeded(m, downloadDir, MODEL_EXTENSION, forceRedownload, model) +
              FetchIfNeeded(m, downloadDir, CONFIG_EXTENSION, forceRedownload, config))
  }

  /**
   * For a voice that matches: the voice code rebuilt from the groups is the
   * stripped voice itself, the model is `<voice_code>.onnx` and the config
   * `<voice_code>.onnx.json` in the download directory, each is fetched exactly
   * when forced or missing or empty, the model first, and each URL's last path
   * segment is the local file name.
   */
  lemma DownloadTargets(voice: string, downloadDir: string, forceRedownload: bool,
                        model: FileState, config: FileState)
    requires MatchVoice(Strip(voice)).Some?
    ensures var m := MatchVoice(Strip(voice)).value;
      var fetches := DownloadVoice(voice, downloadDir, forceRedownload, model, config).value;
      var modelFetch := Fetch(VoiceUrl(m, MODEL_EXTENSION), LocalPath(downloadDir, Strip(voice) + MODEL_EXTENSION));
      var configFetch := Fetch(VoiceUrl(m, CONFIG_EXTENSION), LocalPath(downloadDir, Strip(voice) + CONFIG_EXTENSION));
      && VoiceCode(m) == Strip(voice)
      && fetches == (if forceRedownload || NeedsDownload(model) then [modelFetch] else []) +
                    (if forceRedownload || NeedsDownload(config) then [configFetch] else [])
  {
    var s := Strip(voice);
    MatchSound(s);
    StripIsPiece(voice);
    NoFinalFeed(s, VoiceCode(MatchVoice(s).value));
  }

  /** Text whose last character is not a line feed is not something followed by a line feed. */
  lemma NoFinalFeed(s: string, code: string)
    requires |s| == 0 || !IsPySpace(s[|s| - 1])
    ensures s != code + "\n"
  {
    assert (code + "\n")[|code|] == '\n';
  }

  /** A URL names the file it downloads: it ends with `/<voice_code><extension>?download=true`. */
  lemma UrlEndsWithFileName(m: VoiceMatch, extension: string)
    ensures var tail := "/" + VoiceCode(m) + extension + URL_SUFFIX;
      var url := VoiceUrl(m, extension);
      |tail| <= |url| && url[|url| - |tail|..] == tail
  {
    var head := URL_PREFIX + m.langFamily + "/" + LangCode(m) + "/" + m.voiceName + "/" + m.voiceQuality;
    var tail := "/" + VoiceCode(m) + extension + URL_SUFFIX;
    assert VoiceUrl(m, extension) == head + tail;
  }

  // ---------------------------------------------------------------------------
  // _copyfileobj_with_progress

  newtype byte = x: int | 0 <= x < 256

  /** The file `dest_file` that the response is written into. */
  class DestFile {
    var contents: seq<byte>

    constructor ()
      ensures contents == []
    {
      contents := [];
    }
  }

  /** The reads before the first empty one: what the copy loop writes. */
  function Received(chunks: seq<seq<byte>>): (r: seq<seq<byte>>)
    ensures |r| <= |chunks| && r == chunks[..|r|]
    ensures forall k :: 0 <= k < |r| ==> r[k] != []
    ensures |r| < |chunks| ==> chunks[|r|] == []
    decreases |chunks|
  {
    if |chunks| == 0 || chunks[0] == [] then [] else [chunks[0]] + Received(chunks[1..])
  }

  /** The chunks written one after another. */
  function Concat(chunks: seq<seq<byte>>): seq<byte>
    decreases |chunks|
  {
    if |chunks| == 0 then [] else Concat(chunks[..|chunks| - 1]) + chunks[|chunks| - 1]
  }

  /** A prefix of non-empty reads followed by an empty read (or the end) is exactly what is received. */
  lemma {:induction false} ReceivedIsPrefix(chunks: seq<seq<byte>>, i: nat)
    requires i <= |chunks|
    requires forall k :: 0 <= k < i ==> chunks[k] != []
    requires i == |chunks| || chunks[i] == []
    ensures Received(chunks) == chunks[..i]
    decreases i
  {
    if i > 0 {
      ReceivedIsPrefix(chunks[1..], i - 1);
      assert chunks[..i] == [chunks[0]] + chunks[1..][..i - 1];
    }
  }

  /** The loop stops at the first empty read: nothing read after it is written. */
  lemma ReceivedStopsAtEmpty(before: seq<seq<byte>>, after: seq<seq<byte>>)
    requires forall k :: 0 <= k < |before| ==> before[k] != []
    ensures Received(before + [[]] + after) == before
  {
    var chunks := before + [[]] + after;
    ReceivedIsPrefix(chunks, |before|);
    assert chunks[..|before|] == before;
  }

  /**
   * The copy loop of `_copyfileobj_with_progress`: each `response.read` result
   * (the next element of `chunks`; every read after the last is empty) is
   * written to `dest` until the first empty one, and the number of bytes
   * written is returned.
   */
  method CopyFileObjWithProgress(chunks: seq<seq<byte>>, dest: DestFile) returns (downloadedBytes: nat)
    modifies dest
    ensures dest.contents == old(dest.contents) + Concat(Received(chunks))
    ensures downloadedBytes == |Concat(Received(chunks))|
  {
    downloadedBytes := 0;
    var i := 0;
    while true
      invariant 0 <= i <= |chunks|
      invariant forall k :: 0 <= k < i ==> chunks[k] != []
      invariant dest.contents == old(dest.contents) + Concat(chunks[..i])
      invariant downloadedBytes == |Concat(chunks[..i])|
      decreases |chunks| - i
    {
      var chunk := if i < |chunks| then chunks[i] else [];
      if chunk == [] {
        break;
      }
      dest.contents := dest.contents + chunk;
      downloadedBytes := downloadedBytes + |chunk|;
      assert chunks[..i + 1][..i] == chunks[..i];
      i := i + 1;
    }
    ReceivedIsPrefix(chunks, i);
  }
}
