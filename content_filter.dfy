/** `filterXmlTags`: turns a homework's content into plain text. Text without
    markup is returned as it is; a FlowDocument gives the text of its `Run`
    elements; anything else goes to the browser's HTML parser or, when that
    throws, to a loop that removes `<...>` tags until nothing changes. */
module ContentFilter {
  import opened Strings
  import opened JsValues

  /** How the browser's `DOMParser` treats the content: it throws, or it
      yields a body whose `textContent` and `innerText` are these. */
  datatype DomOutcome = DomThrows | DomParsed(textContent: string, innerText: string)

  /** One match of a `<Run ...>text</Run>` pattern: where it starts, the
      captured text, and the index just past `</Run>`. */
  datatype RunMatch = RunMatch(start: nat, text: string, end: nat)

  const ZhLang := "xml:lang=\"zh-cn\""

  /** `s` has `lit` at `p`, letters compared without regard to ASCII case
      (the `i` flag: outside ASCII no character folds onto an ASCII one). */
  predicate MatchesAt(s: string, p: nat, lit: string)
  {
    p + |lit| <= |s| && LowerAscii(s[p..p + |lit|]) == lit
  }

  /** The pattern `<Run[^>]*>([^<]+)<\/Run>` (with `zhOnly`, the pattern
      `<Run[^>]*xml:lang="zh-cn"[^>]*>([^<]+)<\/Run>`), case-insensitive,
      anchored at `p`. `[^>]*` cannot pass a `>`, so the tag ends at the first
      `>`; `[^<]+` cannot pass a `<`, so the text ends at the next `<`, which
      must open `</Run>`. */
  function RunAt(s: string, p: nat, zhOnly: bool): (r: Option<RunMatch>)
    ensures r.Some? ==> r.value.start == p && p < r.value.end <= |s| && r.value.text != ""
    ensures r.Some? ==> '<' !in r.value.text && s[p] == '<'
  {
    if !MatchesAt(s, p, "<run") then None
    else
      assert LowerChar(s[p..p + 4][0]) == '<';
      var q := IndexFrom(s, '>', p + 4);
      if q == |s| then None
      else if zhOnly && !Contains(LowerAscii(s[p + 4..q]), ZhLang) then None
      else
        var t := IndexFrom(s, '<', q + 1);
        if t == q + 1 || !MatchesAt(s, t, "</run>") then None
        else Some(RunMatch(p, s[q + 1..t], t + 6))
  }

  /** `s.match(pattern)` without the `g` flag, searching from `from`: the
      leftmost match. */
  function FirstRun(s: string, from: nat, zhOnly: bool): (r: Option<RunMatch>)
    requires from <= |s|
    ensures r.Some? ==> from <= r.value.start && RunAt(s, r.value.start, zhOnly) == r
    ensures forall p :: from <= p && (r.None? || p < r.value.start) ==> RunAt(s, p, zhOnly).None?
    decreases |s| - from
  {
    if from == |s| then None
    else if RunAt(s, from, zhOnly).Some? then RunAt(s, from, zhOnly)
    else FirstRun(s, from + 1, zhOnly)
  }

  /** The matches `s.match(pattern)` finds with the `g` flag from `from`:
      each search resumes where the previous match ended. */
  function AllRuns(s: string, from: nat): (ms: seq<RunMatch>)
    requires from <= |s|
    ensures forall i :: 0 <= i < |ms| ==> from <= ms[i].start && ms[i].end <= |s|
    ensures forall i :: 0 <= i < |ms| ==> RunAt(s, ms[i].start, false) == Some(ms[i])
    ensures forall i :: 0 <= i < |ms| - 1 ==> ms[i].end <= ms[i + 1].start
    decreases |s| - from
  {
    if from == |s| then []
    else match RunAt(s, from, false)
      case Some(m) => [m] + AllRuns(s, m.end)
      case None => AllRuns(s, from + 1)
  }

  /** The global search skips no run: every position where the pattern
      matches lies inside one of the matches found, the one that overlaps
      it. Returns that match's index. */
  lemma {:induction false} AllRunsComplete(s: string, from: nat, p: nat) returns (i: nat)
    requires from <= p < |s| && RunAt(s, p, false).Some?
    ensures i < |AllRuns(s, from)| && AllRuns(s, from)[i].start <= p < AllRuns(s, from)[i].end
    decreases |s| - from
  {
    match RunAt(s, from, false)
    case Some(m) =>
      if p < m.end {
        i := 0;
      } else {
        var j := AllRunsComplete(s, m.end, p);
        i := j + 1;
      }
    case None =>
      i := AllRunsComplete(s, from + 1, p);
  }

  /** The matched strings themselves, as the `g` match returns them. */
  function MatchedStrings(s: string): (r: seq<string>)
    ensures |r| == |AllRuns(s, 0)|
    ensures forall i :: 0 <= i < |r| ==> |r[i]| > 0 && r[i][0] == '<'
  {
    var ms := AllRuns(s, 0);
    seq(|ms|, i requires 0 <= i < |ms| => s[ms[i].start..ms[i].end])
  }

  /** `match.match(pattern)` on one matched string, then the trimmed group,
      or `''` when nothing matches. */
  function Rematch(m: string): (r: string)
    ensures '<' !in r
  {
    var f := FirstRun(m, 0, false);
    if f.Some? then
      TrimKeepsOut(f.value.text, '<');
      Trim(f.value.text)
    else ""
  }

  /** The text the FlowDocument branch produces from all the runs. */
  function RunsText(matched: seq<string>): (r: string)
    ensures '<' !in r
  {
    var texts := NonEmpty(seq(|matched|, i requires 0 <= i < |matched| => Rematch(matched[i])));
    JoinKeepsOut(texts, " ", '<');
    Join(texts, " ")
  }

  /** The trimmed texts of the given matches, in order. */
  function TrimmedTexts(ms: seq<RunMatch>): (r: seq<string>)
    ensures |r| == |ms|
  {
    seq(|ms|, i requires 0 <= i < |ms| => Trim(ms[i].text))
  }

  /** One `s.replace(/<[^>]*>/g, '')`: every `<` that has a `>` after it is
      removed together with everything up to and including the first such
      `>`; scanning resumes just after it. */
  function StripPass(s: string): (r: string)
    ensures forall c :: c in r ==> c in s
    ensures '<' !in s ==> r == s
    decreases |s|
  {
    if |s| == 0 then ""
    else if s[0] == '<' && IndexFrom(s, '>', 1) < |s| then StripPass(s[IndexFrom(s, '>', 1) + 1..])
    else [s[0]] + StripPass(s[1..])
  }

  /** No `<` is followed, anywhere later, by a `>`: no tag is left to remove. */
  predicate NoTagPair(s: string)
  {
    forall i, j :: 0 <= i < j < |s| && s[i] == '<' ==> s[j] != '>'
  }

  /** What `filterXmlTags(content)` returns, given what the HTML parser does. */
  function Filtered(content: string, dom: DomOutcome): (r: string)
    ensures content == "" ==> r == content
    ensures '<' !in content || '>' !in content ==> r == content
  {
    if content == "" then content
    else if '<' in content && '>' in content then
      var runMatch := FirstRun(content, 0, true);
      var runMatches := MatchedStrings(content);
      if Contains(content, "<FlowDocument") && runMatch.Some? && runMatch.value.text != "" then
        Trim(runMatch.value.text)
      else if Contains(content, "<FlowDocument") && |runMatches| > 0 then
        RunsText(runMatches)
      else match dom
        case DomParsed(textContent, innerText) =>
          if textContent != "" then textContent else if innerText != "" then innerText else content
        case DomThrows => Trim(StripPass(content))
    else content
  }

  /** Each pass either changes nothing or makes the string strictly shorter,
      so the loop that repeats it until nothing changes stops. */
  lemma {:induction false} StripPassShrinks(s: string)
    ensures |StripPass(s)| <= |s|
    ensures StripPass(s) != s ==> |StripPass(s)| < |s|
    decreases |s|
  {
    if |s| > 0 {
      if s[0] == '<' && IndexFrom(s, '>', 1) < |s| {
        StripPassShrinks(s[IndexFrom(s, '>', 1) + 1..]);
      } else {
        StripPassShrinks(s[1..]);
        assert s == [s[0]] + s[1..];
      }
    }
  }

  /** A pass leaves a string without any `>` as it is. */
  lemma {:induction false} StripPassNoClose(s: string)
    requires '>' !in s
    ensures StripPass(s) == s
    decreases |s|
  {
    if |s| > 0 {
      assert '>' !in s[1..];
      StripPassNoClose(s[1..]);
      assert s == [s[0]] + s[1..];
    }
  }

  /** A single pass already leaves no tag behind. */
  lemma {:induction false} StripPassRemovesTags(s: string)
    ensures NoTagPair(StripPass(s))
    decreases |s|
  {
    if |s| > 0 {
      var q := IndexFrom(s, '>', 1);
      if s[0] == '<' && q < |s| {
        StripPassRemovesTags(s[q + 1..]);
      } else if s[0] == '<' {
        assert '>' !in s[1..] by {
          forall k | 0 <= k < |s| - 1 ensures s[1..][k] != '>' {
            assert s[1..][k] == s[k + 1];
          }
        }
        StripPassNoClose(s[1..]);
        assert StripPass(s) == s;
      } else {
        StripPassRemovesTags(s[1..]);
        var r := StripPass(s[1..]);
        assert StripPass(s) == [s[0]] + r;
        forall i, j | 0 <= i < j < |[s[0]] + r| && ([s[0]] + r)[i] == '<'
          ensures ([s[0]] + r)[j] != '>'
        {
          assert i > 0;
          assert ([s[0]] + r)[i] == r[i - 1] && ([s[0]] + r)[j] == r[j - 1];
        }
      }
    }
  }

  /** A pass changes nothing in a string without tags. */
  lemma {:induction false} StripPassFixpoint(s: string)
    requires NoTagPair(s)
    ensures StripPass(s) == s
    decreases |s|
  {
    if |s| > 0 {
      if s[0] == '<' {
        assert IndexFrom(s, '>', 1) == |s|;
      }
      assert NoTagPair(s[1..]) by {
        forall i, j | 0 <= i < j < |s[1..]| && s[1..][i] == '<' ensures s[1..][j] != '>' {
          assert s[1..][i] == s[i + 1] && s[1..][j] == s[j + 1];
        }
      }
      StripPassFixpoint(s[1..]);
      assert s == [s[0]] + s[1..];
    }
  }

  /** Stripping is idempotent. */
  lemma StripPassIdempotent(s: string)
    ensures StripPass(StripPass(s)) == StripPass(s)
  {
    StripPassRemovesTags(s);
    StripPassFixpoint(StripPass(s));
  }

  /** A slice of a string without tags has none either. */
  lemma SliceNoTagPair(s: string, a: nat, b: nat)
    requires a <= b <= |s| && NoTagPair(s)
    ensures NoTagPair(s[a..b])
  {
    forall i, j | 0 <= i < j < b - a && s[a..b][i] == '<' ensures s[a..b][j] != '>' {
      assert s[a..b][i] == s[a + i] && s[a..b][j] == s[a + j];
    }
  }

  /** The fallback loop: `filtered = filtered.replace(/<[^>]*>/g, '')` until
      it stops changing, then trimmed. */
  method StripToFixpoint(content: string) returns (r: string)
    ensures r == Trim(StripPass(content))
    ensures NoTagPair(r) && Trim(r) == r
  {
    var filtered := content;
    var previous := filtered;
    filtered := StripPass(filtered);
    while filtered != previous
      invariant filtered == StripPass(previous)
      invariant filtered == StripPass(content)
      decreases |previous|
    {
      StripPassShrinks(previous);
      StripPassIdempotent(content);
      previous := filtered;
      filtered := StripPass(filtered);
    }
    r := Trim(filtered);
    StripPassRemovesTags(content);
    var a, b := TrimIsSlice(filtered);
    SliceNoTagPair(filtered, a, b);
    TrimIdempotent(filtered);
  }

  /** `filterXmlTags(content)`. */
  method FilterXmlTags(content: string, dom: DomOutcome) returns (r: string)
    ensures r == Filtered(content, dom)
  {
    if content == "" {
      return content;
    }
    if '<' in content && '>' in content {
      if Contains(content, "<FlowDocument") {
        var runMatch := FirstRun(content, 0, true);
        if runMatch.Some? && runMatch.value.text != "" {
          return Trim(runMatch.value.text);
        }
        var runMatches := MatchedStrings(content);
        if |runMatches| > 0 {
          return RunsText(runMatches);
        }
      }
      match dom {
        case DomParsed(textContent, innerText) =>
          r := if textContent != "" then textContent else if innerText != "" then innerText else content;
        case DomThrows =>
          r := StripToFixpoint(content);
      }
      return;
    }
    return content;
  }

  /** Running the fallback on its own output changes nothing. */
  lemma StripToFixpointIdempotent(s: string)
    ensures Trim(StripPass(Trim(StripPass(s)))) == Trim(StripPass(s))
  {
    var f := StripPass(s);
    StripPassRemovesTags(s);
    var a, b := TrimIsSlice(f);
    SliceNoTagPair(f, a, b);
    StripPassFixpoint(Trim(f));
    TrimIdempotent(f);
  }

  /** Two runs of IndexFrom agree once a slice of `s` is searched instead. */
  lemma IndexFromSlice(s: string, c: char, p: nat, e: nat, from: nat)
    requires p <= from <= e <= |s|
    requires IndexFrom(s, c, from) < e
    ensures IndexFrom(s[p..e], c, from - p) == IndexFrom(s, c, from) - p
  {
    var x := s[p..e];
    var r := IndexFrom(x, c, from - p);
    var i := IndexFrom(s, c, from);
    assert forall k :: 0 <= k < |x| ==> x[k] == s[p + k];
  }

  /** Slicing a slice is slicing the original. */
  lemma SliceOfSlice(s: string, p: nat, e: nat, a: nat, b: nat)
    requires p <= a <= b <= e <= |s|
    ensures s[p..e][a - p..b - p] == s[a..b]
  {
    var x := s[p..e];
    assert forall k :: 0 <= k < |x| ==> x[k] == s[p + k];
  }

  /** A literal found at `a` in `s` is found at `a - p` in a slice starting at `p`. */
  lemma MatchesAtSlice(s: string, p: nat, e: nat, a: nat, lit: string)
    requires p <= a && a + |lit| <= e <= |s|
    requires MatchesAt(s, a, lit)
    ensures MatchesAt(s[p..e], a - p, lit)
  {
    SliceOfSlice(s, p, e, a, a + |lit|);
  }

  /** The facts a match at `p` rests on. */
  lemma RunAtFacts(s: string, p: nat) returns (q: nat, t: nat)
    requires RunAt(s, p, false).Some?
    ensures MatchesAt(s, p, "<run") && p + 4 <= q < t && t + 6 == RunAt(s, p, false).value.end
    ensures q == IndexFrom(s, '>', p + 4) && t == IndexFrom(s, '<', q + 1)
    ensures MatchesAt(s, t, "</run>") && t > q + 1
    ensures RunAt(s, p, false).value.text == s[q + 1..t]
  {
    q := IndexFrom(s, '>', p + 4);
    t := IndexFrom(s, '<', q + 1);
  }

  /** What the slice `s[p..t + 6]` covered by a match at `p` looks like
      from its own start. */
  lemma {:induction false} SliceOfMatch(s: string, p: nat, q: nat, t: nat)
    requires MatchesAt(s, p, "<run") && p + 4 <= q < t && t + 6 <= |s|
    requires q == IndexFrom(s, '>', p + 4) && t == IndexFrom(s, '<', q + 1)
    requires MatchesAt(s, t, "</run>")
    ensures MatchesAt(s[p..t + 6], 0, "<run") && MatchesAt(s[p..t + 6], t - p, "</run>")
    ensures IndexFrom(s[p..t + 6], '>', 4) == q - p && IndexFrom(s[p..t + 6], '<', q - p + 1) == t - p
    ensures s[p..t + 6][q - p + 1..t - p] == s[q + 1..t]
  {
    var e := t + 6;
    MatchesAtSlice(s, p, e, p, "<run");
    IndexFromSlice(s, '>', p, e, p + 4);
    IndexFromSlice(s, '<', p, e, q + 1);
    MatchesAtSlice(s, p, e, t, "</run>");
    SliceOfSlice(s, p, e, q + 1, t);
  }

  /** A string laid out as a run from its first character matches there. */
  lemma {:induction false} RunAtStart(x: string, q: nat, t: nat)
    requires MatchesAt(x, 0, "<run") && 4 <= q && q + 1 < t && t + 6 == |x|
    requires IndexFrom(x, '>', 4) == q && IndexFrom(x, '<', q + 1) == t
    requires MatchesAt(x, t, "</run>")
    ensures FirstRun(x, 0, false) == Some(RunMatch(0, x[q + 1..t], |x|))
  {
    assert RunAt(x, 0, false) == Some(RunMatch(0, x[q + 1..t], |x|));
  }

  /** The pattern found again in the slice `s[p..t + 6]` that a match at
      `p` covers gives back the same text. */
  lemma {:induction false} RematchSlice(s: string, p: nat, q: nat, t: nat)
    requires MatchesAt(s, p, "<run") && p + 4 <= q < t && t + 6 <= |s|
    requires q == IndexFrom(s, '>', p + 4) && t == IndexFrom(s, '<', q + 1)
    requires MatchesAt(s, t, "</run>") && t > q + 1
    ensures FirstRun(s[p..t + 6], 0, false) == Some(RunMatch(0, s[q + 1..t], t + 6 - p))
  {
    SliceOfMatch(s, p, q, t);
    var x := s[p..t + 6];
    assert |x| == t + 6 - p;
    RunAtStart(x, q - p, t - p);
    assert x[q - p + 1..t - p] == s[q + 1..t];
  }

  /** The pattern found again inside a matched string gives back the same text. */
  lemma {:induction false} RematchSame(s: string, m: RunMatch)
    requires RunAt(s, m.start, false) == Some(m)
    ensures Rematch(s[m.start..m.end]) == Trim(m.text)
  {
    var q, t := RunAtFacts(s, m.start);
    assert m.end == t + 6 && m.text == s[q + 1..t];
    RematchSlice(s, m.start, q, t);
    RematchOf(s[m.start..m.end], m.text);
  }

  /** `Rematch` trims the text of the first match. */
  lemma RematchOf(x: string, text: string)
    requires FirstRun(x, 0, false).Some? && FirstRun(x, 0, false).value.text == text
    ensures Rematch(x) == Trim(text)
  {
  }

  /** Matching each matched string again is the same as trimming each
      match's text. */
  lemma RunsTextIsTrimmedTexts(s: string)
    ensures RunsText(MatchedStrings(s)) == Join(NonEmpty(TrimmedTexts(AllRuns(s, 0))), " ")
  {
    var ms := AllRuns(s, 0);
    var matched := MatchedStrings(s);
    var texts := seq(|matched|, i requires 0 <= i < |matched| => Rematch(matched[i]));
    forall i | 0 <= i < |ms| ensures texts[i] == TrimmedTexts(ms)[i] {
      RematchSame(s, ms[i]);
    }
    assert texts == TrimmedTexts(ms);
  }

  /** In a FlowDocument with a Chinese run, the result is the trimmed text
      of the first such run, whatever else the document holds. */
  lemma ChineseRunWins(content: string, dom: DomOutcome, p: nat)
    requires Contains(content, "<FlowDocument") && '>' in content
    requires RunAt(content, p, true).Some?
    requires forall k :: 0 <= k < p ==> RunAt(content, k, true).None?
    ensures Filtered(content, dom) == Trim(RunAt(content, p, true).value.text)
  {
    var f := FirstRun(content, 0, true);
    assert f.Some? && f.value.start == p;
  }

  /** No Chinese run anywhere means the non-global search finds none. */
  lemma NoChineseRun(content: string)
    requires forall k :: 0 <= k < |content| ==> RunAt(content, k, true).None?
    ensures FirstRun(content, 0, true).None?
  {
  }

  /** Without a Chinese run, a FlowDocument with runs gives their trimmed
      texts in document order, the empty ones dropped, joined by a space. */
  lemma AllRunsJoined(content: string, dom: DomOutcome)
    requires Contains(content, "<FlowDocument") && '>' in content
    requires FirstRun(content, 0, true).None?
    requires AllRuns(content, 0) != []
    ensures Filtered(content, dom) == Join(NonEmpty(TrimmedTexts(AllRuns(content, 0))), " ")
  {
    var m := AllRuns(content, 0)[0];
    assert content[m.start] == '<';
    RunsTextIsTrimmedTexts(content);
  }

  /** No `Run` branch applies: the content is no FlowDocument, or it has no
      `<Run ...>text</Run>` at all. */
  predicate NoRunBranch(content: string)
  {
    !Contains(content, "<FlowDocument") || (FirstRun(content, 0, true).None? && AllRuns(content, 0) == [])
  }

  /** When no run applies and the HTML parser throws, the result is the
      stripped, trimmed content: no tag is left and no white space at either
      end. */
  lemma FallbackResult(content: string)
    requires '<' in content && '>' in content && NoRunBranch(content)
    ensures Filtered(content, DomThrows) == Trim(StripPass(content))
    ensures NoTagPair(Filtered(content, DomThrows))
    ensures Trim(Filtered(content, DomThrows)) == Filtered(content, DomThrows)
  {
    var f := StripPass(content);
    StripPassRemovesTags(content);
    var a, b := TrimIsSlice(f);
    SliceNoTagPair(f, a, b);
    TrimIdempotent(f);
  }

  /** When no run applies and the HTML parser succeeds, the result is its
      `textContent`, else its `innerText`, else the content itself, and so
      never empty. */
  lemma ParsedResult(content: string, textContent: string, innerText: string)
    requires '<' in content && '>' in content && NoRunBranch(content)
    ensures var r := Filtered(content, DomParsed(textContent, innerText));
      r != "" && (r == textContent || r == innerText || r == content)
    ensures textContent != "" ==> Filtered(content, DomParsed(textContent, innerText)) == textContent
    ensures textContent == "" && innerText != "" ==> Filtered(content, DomParsed(textContent, innerText)) == innerText
  {
  }

  /** A character absent from a string is absent from its trimmed form. */
  lemma TrimKeepsOut(s: string, c: char)
    requires c !in s
    ensures c !in Trim(s)
  {
    var a, b := TrimIsSlice(s);
    forall k | 0 <= k < b - a ensures Trim(s)[k] != c {
      assert Trim(s)[k] == s[a + k];
    }
  }

  /** Joining parts that lack a character, with a separator that lacks it,
      gives a string that lacks it. */
  lemma {:induction false} JoinKeepsOut(parts: seq<string>, sep: string, c: char)
    requires c !in sep && forall i :: 0 <= i < |parts| ==> c !in parts[i]
    ensures c !in Join(parts, sep)
  {
    if |parts| > 1 {
      JoinKeepsOut(parts[1..], sep, c);
    }
  }

  /** A match of the Run pattern starts at a `<` that a later `>` follows. */
  lemma RunNeedsTagPair(s: string, p: nat, zhOnly: bool)
    ensures RunAt(s, p, zhOnly).Some? ==> !NoTagPair(s)
  {
    if RunAt(s, p, zhOnly).Some? {
      assert RunAt(s, p, false).Some?;
      var q, t := RunAtFacts(s, p);
      assert s[p] == '<' && s[q] == '>';
    }
  }

  /** Where the pattern matches nowhere, the global search finds nothing. */
  lemma {:induction false} NoRunsFrom(s: string, from: nat)
    requires from <= |s|
    requires forall p: nat :: RunAt(s, p, false).None?
    ensures AllRuns(s, from) == []
    decreases |s| - from
  {
    if from < |s| {
      NoRunsFrom(s, from + 1);
    }
  }

  /** Trimmed text without a tag pair is left as it is when the HTML parser
      throws: no run matches it and stripping removes nothing. */
  lemma TagFreeFiltered(s: string)
    requires NoTagPair(s) && Trim(s) == s
    ensures Filtered(s, DomThrows) == s
  {
    forall p: nat ensures RunAt(s, p, true).None? && RunAt(s, p, false).None? {
      RunNeedsTagPair(s, p, true);
      RunNeedsTagPair(s, p, false);
    }
    assert FirstRun(s, 0, true).None?;
    NoRunsFrom(s, 0);
    StripPassFixpoint(s);
  }

  /** When the HTML parser throws, filtering the filter's own output changes
      nothing, whichever branch produced it. */
  lemma FilterIdempotentWhenDomThrows(content: string)
    ensures Filtered(Filtered(content, DomThrows), DomThrows) == Filtered(content, DomThrows)
  {
    if content != "" && '<' in content && '>' in content {
      var runMatch := FirstRun(content, 0, true);
      if Contains(content, "<FlowDocument") && runMatch.Some? && runMatch.value.text != "" {
        TrimKeepsOut(runMatch.value.text, '<');
      } else if !(Contains(content, "<FlowDocument") && |MatchedStrings(content)| > 0) {
        var f := StripPass(content);
        StripPassRemovesTags(content);
        var a, b := TrimIsSlice(f);
        SliceNoTagPair(f, a, b);
        TrimIdempotent(f);
        TagFreeFiltered(Trim(f));
      }
    }
  }
}
