/**
 * The text cleaner of libpiper/clean_text.cpp, at the level of Unicode code
 * points: `cleanText` first walks the UTF-32 text, turning each zero-width
 * non-joiner (U+200C) into a space and dropping emoji, then deletes every web
 * link matching the regular expression `(https?://|www\.)[^\s]+`.
 *
 * The regular expression is applied by `std::regex_replace` to the UTF-8 bytes
 * in the "C" locale, where `\s` is exactly the six ASCII white-space bytes.
 * The scheme prefixes are ASCII and every byte of a multi-byte character is
 * non-white-space, so matching on code points gives the same matches.
 */
module CleanText {

  /** A Unicode code point (the source's `char32_t`). */
  type CodePoint = int

  /** ZERO WIDTH NON-JOINER. */
  const ZWNJ: CodePoint := 0x200C
  const SPACE: CodePoint := 0x20

  // ---------------------------------------------------------------------------
  // Emoji test

  /**
   * The twelve inclusive code-point ranges that `isEmoji` tests, in its
   * order. They merge into five disjoint blocks.
   */
  predicate IsEmoji(ch: CodePoint)
    ensures IsEmoji(ch) <==>
      (0x2600 <= ch <= 0x27BF) || (0x2B50 <= ch <= 0x2B55) || (0x1F1E6 <= ch <= 0x1F1FF) ||
      (0x1F300 <= ch <= 0x1F64F) || (0x1F680 <= ch <= 0x1FAFF)
  {
    (0x1F600 <= ch <= 0x1F64F) ||  // Emoticons
    (0x1F300 <= ch <= 0x1F5FF) ||  // Symbols & Pictographs
    (0x1F680 <= ch <= 0x1F6FF) ||  // Transport & Map
    (0x1F700 <= ch <= 0x1F77F) ||  // Alchemical Symbols
    (0x1F780 <= ch <= 0x1F7FF) ||  // Geometric Shapes Extended
    (0x1F800 <= ch <= 0x1F8FF) ||  // Supplemental Arrows-C
    (0x1F900 <= ch <= 0x1F9FF) ||  // Supplemental Symbols
    (0x1FA00 <= ch <= 0x1FAFF) ||  // Extended Pictographs
    (0x1F1E6 <= ch <= 0x1F1FF) ||  // Regional Indicator Symbols
    (0x2600 <= ch <= 0x26FF) ||    // Misc Symbols
    (0x2700 <= ch <= 0x27BF) ||    // Dingbats
    (0x2B50 <= ch <= 0x2B55)       // Stars and Circles
  }

  /**
   * The ranges leave out U+1F650..U+1F67F (Ornamental Dingbats) and
   * everything below U+2600, so no ASCII character, no ZWNJ and no space is
   * an emoji.
   */
  lemma EmojiBlocks(ch: CodePoint)
    ensures ch < 0x2600 ==> !IsEmoji(ch)
    ensures 0x1F650 <= ch <= 0x1F67F ==> !IsEmoji(ch)
  {
  }

  // ---------------------------------------------------------------------------
  // The filter loop

  /** What the filter loop appends for one code point. */
  function FilterOne(ch: CodePoint): (r: seq<CodePoint>)
    ensures |r| <= 1
  {
    if ch == ZWNJ then [SPACE]
    else if !IsEmoji(ch) then [ch]
    else []
  }

  /** The accumulated `cleanedText` after the filter loop has seen all of `s`. */
  function Filtered(s: seq<CodePoint>): (r: seq<CodePoint>)
    ensures |r| <= |s|
    ensures forall k :: 0 <= k < |r| ==> r[k] != ZWNJ && !IsEmoji(r[k])
    ensures forall k :: 0 <= k < |r| ==> r[k] in s || r[k] == SPACE
    decreases |s|
  {
    if |s| == 0 then []
    else Filtered(s[..|s| - 1]) + FilterOne(s[|s| - 1])
  }

  /** Filtering works code point by code point: it distributes over concatenation. */
  lemma {:induction false} FilteredAppend(a: seq<CodePoint>, b: seq<CodePoint>)
    ensures Filtered(a + b) == Filtered(a) + Filtered(b)
    decreases |b|
  {
    if |b| == 0 {
      assert a + b == a;
    } else {
      var b' := b[..|b| - 1];
      assert (a + b)[..|a + b| - 1] == a + b';
      FilteredAppend(a, b');
    }
  }

  /** The number of occurrences of `c` in `s`. */
  function Count(s: seq<CodePoint>, c: CodePoint): nat
    decreases |s|
  {
    if |s| == 0 then 0
    else Count(s[..|s| - 1], c) + (if s[|s| - 1] == c then 1 else 0)
  }

  /**
   * How often each code point occurs after filtering: every ZWNJ became exactly
   * one space, emoji are gone, and every other code point occurs as often as in
   * the input.
   */
  lemma {:induction false} FilteredCounts(s: seq<CodePoint>, c: CodePoint)
    ensures c == SPACE ==> Count(Filtered(s), c) == Count(s, SPACE) + Count(s, ZWNJ)
    ensures (c == ZWNJ || IsEmoji(c)) ==> Count(Filtered(s), c) == 0
    ensures c != SPACE && c != ZWNJ && !IsEmoji(c) ==> Count(Filtered(s), c) == Count(s, c)
    decreases |s|
  {
    if |s| > 0 {
      var s' := s[..|s| - 1];
      FilteredCounts(s', c);
      CountAppend(Filtered(s'), FilterOne(s[|s| - 1]), c);
    }
  }

  lemma {:induction false} CountAppend(a: seq<CodePoint>, b: seq<CodePoint>, c: CodePoint)
    requires |b| <= 1
    ensures Count(a + b, c) == Count(a, c) + Count(b, c)
  {
    if |b| == 1 {
      assert (a + b)[..|a + b| - 1] == a;
      assert b[..0] == [];
    } else {
      assert a + b == a;
    }
  }

  /**
   * The filter loop of `cleanText`: each ZWNJ is replaced by a space, emoji are
   * dropped, everything else is appended unchanged.
   */
  method FilterCodePoints(utf32: seq<CodePoint>) returns (cleaned: seq<CodePoint>)
    ensures cleaned == Filtered(utf32)
  {
    cleaned := [];
    for i := 0 to |utf32|
      invariant cleaned == Filtered(utf32[..i])
    {
      var ch := utf32[i];
      if ch == ZWNJ {
        cleaned := cleaned + [SPACE];
      } else if !IsEmoji(ch) {
        cleaned := cleaned + [ch];
      }
      assert utf32[..i + 1][..i] == utf32[..i];
    }
    assert utf32[..|utf32|] == utf32;
  }

  // ---------------------------------------------------------------------------
  // The link pattern `(https?://|www\.)[^\s]+`

  /** `\s` in the "C" locale: space, tab, line feed, vertical tab, form feed, carriage return. */
  predicate IsSpace(c: CodePoint)
    ensures IsSpace(c) <==> c == SPACE || 0x09 <= c <= 0x0D
    ensures IsSpace(c) ==> c != ZWNJ && !IsEmoji(c)
  {
    c == 0x20 || c == 0x09 || c == 0x0A || c == 0x0B || c == 0x0C || c == 0x0D
  }

  /** `s` starts with `https://`. */
  predicate StartsHttps(s: seq<CodePoint>)
  {
    |s| >= 8 && s[0] == 0x68 && s[1] == 0x74 && s[2] == 0x74 && s[3] == 0x70 &&
    s[4] == 0x73 && s[5] == 0x3A && s[6] == 0x2F && s[7] == 0x2F
  }

  /** `s` starts with `http://`. */
  predicate StartsHttp(s: seq<CodePoint>)
  {
    |s| >= 7 && s[0] == 0x68 && s[1] == 0x74 && s[2] == 0x74 && s[3] == 0x70 &&
    s[4] == 0x3A && s[5] == 0x2F && s[6] == 0x2F
  }

  /** `s` starts with `www.`. */
  predicate StartsWww(s: seq<CodePoint>)
  {
    |s| >= 4 && s[0] == 0x77 && s[1] == 0x77 && s[2] == 0x77 && s[3] == 0x2E
  }

  /**
   * Length of the alternative `https?://|www\.` matched at the start of `s`, or
   * 0. `s?` is greedy, so `https://` is tried before `http://`; when the scheme
   * is `https://`, backing off to `http` cannot succeed because `://` would have
   * to start at the `s`.
   */
  function SchemeLen(s: seq<CodePoint>): (k: nat)
    ensures k == 0 || k == 4 || k == 7 || k == 8
    ensures k > 0 ==> k <= |s| && forall j :: 0 <= j < k ==> !IsSpace(s[j])
  {
    if StartsHttps(s) then 8
    else if StartsHttp(s) then 7
    else if StartsWww(s) then 4
    else 0
  }

  /** Length of the longest run of non-white-space code points at the start of `s`. */
  function RunLen(s: seq<CodePoint>): (n: nat)
    ensures n <= |s|
    ensures forall j :: 0 <= j < n ==> !IsSpace(s[j])
    ensures n < |s| ==> IsSpace(s[n])
    decreases |s|
  {
    if |s| == 0 || IsSpace(s[0]) then 0 else 1 + RunLen(s[1..])
  }

  /** A run of non-space code points can be measured from any point inside it. */
  lemma {:induction false} RunLenSkip(s: seq<CodePoint>, k: nat)
    requires k <= |s|
    requires forall j :: 0 <= j < k ==> !IsSpace(s[j])
    ensures RunLen(s) == k + RunLen(s[k..])
    decreases k
  {
    if k > 0 {
      RunLenSkip(s[1..], k - 1);
      assert s[1..][k - 1..] == s[k..];
    }
  }

  /**
   * Length of the link that `regex_search` matches when it tries the start of
   * `s`, or 0 for no match. `[^\s]+` is greedy and nothing follows it, so a
   * match takes the whole run of non-space code points after the scheme, and
   * needs at least one.
   */
  function LinkLen(s: seq<CodePoint>): (n: nat)
    ensures n <= |s|
    ensures n > 0 ==> SchemeLen(s) > 0 && n == RunLen(s) && n > SchemeLen(s)
  {
    var k := SchemeLen(s);
    if k > 0 && RunLen(s[k..]) > 0 then
      RunLenSkip(s, k);
      k + RunLen(s[k..])
    else 0
  }

  /** None of the first `n` positions of `s` starts a link. */
  predicate LinkFree(s: seq<CodePoint>, n: nat)
    decreases n
  {
    n == 0 || (|s| > 0 && LinkLen(s) == 0 && LinkFree(s[1..], n - 1))
  }

  /** No position of `s` starts a link. */
  predicate NoLink(s: seq<CodePoint>)
  {
    LinkFree(s, |s|)
  }

  /**
   * `regex_replace(text, linkPattern, "")`: scanning from the left, each
   * position either starts a link, which is deleted whole and the scan resumes
   * after it, or its code point is kept.
   */
  function StripLinks(s: seq<CodePoint>): (r: seq<CodePoint>)
    ensures |r| <= |s|
    decreases |s|
  {
    if |s| == 0 then []
    else
      var n := LinkLen(s);
      if n > 0 then StripLinks(s[n..])
      else [s[0]] + StripLinks(s[1..])
  }

  /**
   * Text in which no position starts a link is kept as it is, followed by
   * whatever the rest strips to.
   */
  lemma {:induction false} StripKeepsPrefix(q: seq<CodePoint>, t: seq<CodePoint>)
    requires LinkFree(q + t, |q|)
    ensures StripLinks(q + t) == q + StripLinks(t)
    decreases |q|
  {
    if |q| > 0 {
      var s := q + t;
      assert s[1..] == q[1..] + t;
      StripKeepsPrefix(q[1..], t);
      StripKeepOne(s);
      ConsAppend(q, StripLinks(t));
    } else {
      assert q + t == t;
    }
  }

  /** Stripping at a position that starts no link keeps its code point. */
  lemma StripKeepOne(s: seq<CodePoint>)
    requires |s| > 0 && LinkLen(s) == 0
    ensures StripLinks(s) == [s[0]] + StripLinks(s[1..])
  {
  }

  /** Stripping at a position that starts a link deletes the link. */
  lemma StripDropLink(s: seq<CodePoint>)
    requires LinkLen(s) > 0
    ensures StripLinks(s) == StripLinks(s[LinkLen(s)..])
  {
  }

  lemma SeqAssoc<T>(a: seq<T>, b: seq<T>, c: seq<T>)
    ensures a + (b + c) == (a + b) + c
  {
  }

  lemma ConsAppend(q: seq<CodePoint>, x: seq<CodePoint>)
    requires |q| > 0
    ensures [q[0]] + (q[1..] + x) == q + x
  {
    assert [q[0]] + q[1..] == q;
  }

  /** A link that starts after link-free text is deleted whole; the text before it is kept. */
  lemma StripDeletesLink(q: seq<CodePoint>, t: seq<CodePoint>)
    requires LinkFree(q + t, |q|)
    requires LinkLen(t) > 0
    ensures StripLinks(q + t) == q + StripLinks(t[RunLen(t)..])
  {
    StripKeepsPrefix(q, t);
  }

  /** Text that holds no link is left unchanged. */
  lemma StripNoLink(s: seq<CodePoint>)
    requires NoLink(s)
    ensures StripLinks(s) == s
  {
    assert s + [] == s;
    StripKeepsPrefix(s, []);
  }

  /**
   * A bare scheme followed by white space or by the end of the text is not a
   * link: it is kept, and stripping carries on after it.
   */
  lemma BareSchemeKept(s: seq<CodePoint>)
    requires SchemeLen(s) > 0
    requires RunLen(s) == SchemeLen(s)
    ensures StripLinks(s) == s[..SchemeLen(s)] + StripLinks(s[SchemeLen(s)..])
  {
    var k := SchemeLen(s);
    assert s == s[..k] + s[k..];
    RunLenSkip(s, k);
    BareSchemeTail(s, 1, k);
    StripKeepsPrefix(s[..k], s[k..]);
  }

  /** Inside a scheme, from position `i` on, no position starts another scheme. */
  lemma {:induction false} BareSchemeTail(s: seq<CodePoint>, i: nat, k: nat)
    requires k == SchemeLen(s) > 0 && RunLen(s[k..]) == 0
    requires 1 <= i <= k
    ensures LinkFree(s[i..], k - i)
    ensures i == 1 ==> LinkFree(s, k)
    decreases k - i
  {
    if i < k {
      BareSchemeTail(s, i + 1, k);
      var u := s[i..];
      assert u[0] == s[i];
      assert |u| >= 4 ==> u[3] == s[i + 3];
      assert SchemeLen(u) == 0;
      assert u[1..] == s[i + 1..];
    }
    if i == 1 {
      assert s[1..] == s[i..];
      assert LinkLen(s) == 0;
    }
  }

  /** The prefix of the run at the start of `s` that stripping keeps: up to the first link in it. */
  function KeptRun(s: seq<CodePoint>): (j: nat)
    ensures j <= RunLen(s)
    ensures LinkFree(s, j)
    decreases |s|
  {
    if |s| == 0 || IsSpace(s[0]) || LinkLen(s) > 0 then 0
    else 1 + KeptRun(s[1..])
  }

  /**
   * Within one run of non-space code points, stripping keeps the part before
   * the first link and deletes the rest of the run.
   */
  lemma {:induction false} StripRun(s: seq<CodePoint>)
    ensures StripLinks(s) == s[..KeptRun(s)] + StripLinks(s[RunLen(s)..])
    decreases |s|
  {
    if |s| == 0 || IsSpace(s[0]) {
      assert s[..0] == [] && s[0..] == s;
    } else if LinkLen(s) > 0 {
      assert s[..0] == [];
      StripDropLink(s);
    } else {
      var t := s[1..];
      StripRun(t);
      StripKeepOne(s);
      RunStep(s);
      SliceAfterFirst(s, RunLen(s));
      SliceWithFirst(s, KeptRun(s));
      SeqAssoc([s[0]], t[..KeptRun(t)], StripLinks(s[RunLen(s)..]));
    }
  }

  /** One more code point of a run that starts no link: both the run and its kept part grow by one. */
  lemma RunStep(s: seq<CodePoint>)
    requires |s| > 0 && !IsSpace(s[0]) && LinkLen(s) == 0
    ensures RunLen(s) == 1 + RunLen(s[1..]) && KeptRun(s) == 1 + KeptRun(s[1..])
  {
  }

  lemma SliceAfterFirst(s: seq<CodePoint>, n: nat)
    requires 1 <= n <= |s|
    ensures s[1..][n - 1..] == s[n..]
  {
  }

  lemma SliceWithFirst(s: seq<CodePoint>, n: nat)
    requires 1 <= n <= |s|
    ensures s[..n] == [s[0]] + s[1..][..n - 1]
  {
  }

  /** If the link a text starts lies within its first `m` code points, a text sharing them starts one too. */
  lemma LinkWithinPrefix(u: seq<CodePoint>, t: seq<CodePoint>, m: nat)
    requires m <= |u| && m <= |t| && u[..m] == t[..m]
    requires m == |u| || IsSpace(u[m])
    requires LinkLen(u) > 0
    ensures LinkLen(t) > 0
  {
    var k := SchemeLen(u);
    assert RunLen(u) == LinkLen(u);
    assert k < m;
    assert forall j :: 0 <= j <= k ==> t[j] == u[j] by {
      forall j | 0 <= j <= k ensures t[j] == u[j] {
        assert u[..m][j] == t[..m][j];
      }
    }
    assert SchemeLen(t) == k;
    assert t[k..][0] == u[k..][0];
  }

  /**
   * Link-free text that is a prefix of a run, followed by link-free text that
   * is empty or starts with white space, stays link-free: the run it was cut
   * from had no link start before the cut, so the shorter run has none either.
   */
  lemma {:induction false} LinkFreeConcat(a: seq<CodePoint>, y: seq<CodePoint>, s: seq<CodePoint>)
    requires |a| <= |s| && a == s[..|a|]
    requires LinkFree(s, |a|)
    requires NoLink(y)
    requires |y| == 0 || IsSpace(y[0])
    ensures NoLink(a + y)
    decreases |a|
  {
    if |a| == 0 {
      assert a + y == y;
    } else {
      LinkFreeTail(s, |a|);
      SliceWithFirst(s, |a|);
      LinkFreeConcat(a[1..], y, s[1..]);
      LinkFreeConcatStep(a, y, s);
    }
  }

  /** The first position of such a concatenation starts no link, because the same position of `s` does not. */
  lemma NoLinkAtCut(a: seq<CodePoint>, y: seq<CodePoint>, s: seq<CodePoint>)
    requires 0 < |a| <= |s| && a == s[..|a|]
    requires LinkLen(s) == 0
    requires |y| == 0 || IsSpace(y[0])
    ensures LinkLen(a + y) == 0
  {
    var u := a + y;
    if LinkLen(u) > 0 {
      assert u[..|a|] == s[..|a|];
      assert |a| == |u| || u[|a|] == y[0];
      LinkWithinPrefix(u, s, |a|);
      assert false;
    }
  }

  /** One step of `LinkFreeConcat`: the first position, given the rest. */
  lemma LinkFreeConcatStep(a: seq<CodePoint>, y: seq<CodePoint>, s: seq<CodePoint>)
    requires 0 < |a| <= |s| && a == s[..|a|]
    requires LinkLen(s) == 0
    requires |y| == 0 || IsSpace(y[0])
    requires NoLink(a[1..] + y)
    ensures NoLink(a + y)
  {
    NoLinkAtCut(a, y, s);
    TailOfConcat(a, y);
    NoLinkCons(a + y);
  }

  lemma TailOfConcat<T>(a: seq<T>, y: seq<T>)
    requires |a| > 0
    ensures (a + y)[1..] == a[1..] + y
  {
  }

  lemma NoLinkCons(u: seq<CodePoint>)
    requires |u| > 0 && LinkLen(u) == 0 && NoLink(u[1..])
    ensures NoLink(u)
  {
  }

  lemma LinkFreeTail(s: seq<CodePoint>, n: nat)
    requires n > 0 && LinkFree(s, n)
    ensures |s| > 0 && LinkLen(s) == 0 && LinkFree(s[1..], n - 1)
  {
  }

  /** After stripping, no link is left: every match was removed, and removal never forms a new one. */
  lemma {:induction false} StripLeavesNoLink(s: seq<CodePoint>)
    ensures NoLink(StripLinks(s))
    decreases |s|
  {
    if |s| == 0 {
    } else if IsSpace(s[0]) {
      StripLeavesNoLink(s[1..]);
      var y := StripLinks(s[1..]);
      var out := [s[0]] + y;
      assert StripLinks(s) == out;
      assert out[1..] == y;
    } else {
      var r := RunLen(s);
      var j := KeptRun(s);
      StripRun(s);
      StripLeavesNoLink(s[r..]);
      var y := StripLinks(s[r..]);
      if r < |s| {
        assert LinkLen(s[r..]) == 0;
        assert y == [s[r..][0]] + StripLinks(s[r..][1..]);
      }
      LinkFreeConcat(s[..j], y, s);
    }
  }

  /** Stripping twice strips nothing more. */
  lemma StripIdempotent(s: seq<CodePoint>)
    ensures StripLinks(StripLinks(s)) == StripLinks(s)
  {
    StripLeavesNoLink(s);
    StripNoLink(StripLinks(s));
  }

  /** Stripping only deletes: a property every code point of the text has, the result's have too. */
  lemma {:induction false} StripKeepsFreeOfZwnjAndEmoji(s: seq<CodePoint>)
    requires FreeOfZwnjAndEmoji(s)
    ensures FreeOfZwnjAndEmoji(StripLinks(s))
    decreases |s|
  {
    if |s| > 0 {
      var n := LinkLen(s);
      if n > 0 {
        StripKeepsFreeOfZwnjAndEmoji(s[n..]);
      } else {
        StripKeepsFreeOfZwnjAndEmoji(s[1..]);
      }
    }
  }

  /** No code point of `s` is a ZWNJ or an emoji. */
  predicate FreeOfZwnjAndEmoji(s: seq<CodePoint>)
  {
    forall k :: 0 <= k < |s| ==> s[k] != ZWNJ && !IsEmoji(s[k])
  }

  /** Text with no ZWNJ and no emoji passes the filter loop unchanged. */
  lemma {:induction false} FilteredIdentity(s: seq<CodePoint>)
    requires FreeOfZwnjAndEmoji(s)
    ensures Filtered(s) == s
    decreases |s|
  {
    if |s| > 0 {
      FilteredIdentity(s[..|s| - 1]);
      assert s[..|s| - 1] + [s[|s| - 1]] == s;
    }
  }

  /** A link that fills `u` goes on through the run of non-space code points that follows. */
  lemma LinkExtends(u: seq<CodePoint>, w: seq<CodePoint>)
    requires LinkLen(u) == |u| > 0
    ensures LinkLen(u + w) == |u| + RunLen(w)
  {
    var s := u + w;
    assert s[..|u|] == u[..|u|];
    LinkWithinPrefix(u, s, |u|);
    RunLenSkip(s, |u|);
    assert s[|u|..] == w;
  }

  /** A link that fills `u` is deleted together with the run that continues it. */
  lemma StripAfterLink(u: seq<CodePoint>, w: seq<CodePoint>)
    requires LinkLen(u) == |u| > 0
    ensures StripLinks(u + w) == StripLinks(w[RunLen(w)..])
  {
    LinkExtends(u, w);
    StripDropLink(u + w);
    assert (u + w)[|u| + RunLen(w)..] == w[RunLen(w)..];
  }

  /** The filter loop on `u`, one more code point `c`, then `v`. */
  lemma FilteredAround(u: seq<CodePoint>, c: CodePoint, v: seq<CodePoint>)
    requires FreeOfZwnjAndEmoji(u)
    ensures Filtered(u + [c] + v) == u + FilterOne(c) + Filtered(v)
  {
    FilteredAppend(u + [c], v);
    FilteredAppend(u, [c]);
    FilteredIdentity(u);
    assert [c][..0] == [];
  }

  /**
   * Filtering runs before stripping, so a ZWNJ inside a link ends it: the ZWNJ
   * has become a space, the link stops there, and the text after it is kept.
   */
  lemma ZwnjEndsLink(u: seq<CodePoint>, v: seq<CodePoint>)
    requires LinkLen(u) == |u| > 0
    requires FreeOfZwnjAndEmoji(u)
    ensures StripLinks(Filtered(u + [ZWNJ] + v)) == [SPACE] + StripLinks(Filtered(v))
  {
    FilteredAround(u, ZWNJ, v);
    var w := [SPACE] + Filtered(v);
    SeqAssoc(u, [SPACE], Filtered(v));
    StripAfterLink(u, w);
    ConsSlices(SPACE, Filtered(v));
    assert RunLen(w) == 0;
    StripKeepOne(w);
  }

  lemma AppendEmpty<T>(u: seq<T>, x: seq<T>)
    ensures u + [] + x == u + x
  {
  }

  lemma ConsSlices<T>(c: T, x: seq<T>)
    ensures ([c] + x)[0] == c && ([c] + x)[0..] == [c] + x && ([c] + x)[1..] == x
  {
  }

  /**
   * Filtering runs before stripping, so an emoji inside a link is removed
   * first and the link goes on across it, through the following run of
   * non-space code points.
   */
  lemma EmojiInsideLink(u: seq<CodePoint>, e: CodePoint, v: seq<CodePoint>)
    requires LinkLen(u) == |u| > 0
    requires FreeOfZwnjAndEmoji(u)
    requires IsEmoji(e)
    ensures var w := Filtered(v);
      StripLinks(Filtered(u + [e] + v)) == StripLinks(w[RunLen(w)..])
  {
    FilteredAround(u, e, v);
    AppendEmpty(u, Filtered(v));
    StripAfterLink(u, Filtered(v));
  }

  // ---------------------------------------------------------------------------
  // cleanText

  /** `cleanText`: the filter loop, then link stripping on its result. */
  method Clean(utf32: seq<CodePoint>) returns (result: seq<CodePoint>)
    ensures result == StripLinks(Filtered(utf32))
  {
    var cleanedText := FilterCodePoints(utf32);
    result := StripLinks(cleanedText);
  }

  /**
   * What `cleanText` promises of its result: no ZWNJ, no emoji, no link,
   * never longer than the input, and cleaning it again changes nothing.
   */
  lemma CleanResult(utf32: seq<CodePoint>)
    ensures var r := StripLinks(Filtered(utf32));
      && |r| <= |utf32|
      && FreeOfZwnjAndEmoji(r)
      && NoLink(r)
      && StripLinks(Filtered(r)) == r
  {
    var r := StripLinks(Filtered(utf32));
    StripLeavesNoLink(Filtered(utf32));
    StripKeepsFreeOfZwnjAndEmoji(Filtered(utf32));
    FilteredIdentity(r);
    StripNoLink(r);
  }
}
