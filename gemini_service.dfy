/** The complexity-analysis service: it fills the prompt template, sends the
    prompt to the generative model, recovers the JSON candidate from the reply
    and turns the parsed value into a report with per-field fallbacks.
    The model call and `JSON.parse` are injected as total functions whose
    `Failure` stands for the exception they would throw. */
module GeminiService {
  import opened Wrappers
  import opened Text
  import opened JsonValue

  const LanguageTag := "{{LANGUAGE}}"
  const CodeTag := "{{CODE}}"

  /** The template text up to its first language slot. */
  const PromptIntro := "You are an expert algorithm analyst. Analyze the following code and provide time and space complexity analysis.\n\nIMPORTANT: Respond ONLY with valid JSON in this exact format, no other text:\n{\n  \"time_complexity\": {\n    \"best_case\": \"O(?)\",\n    \"average_case\": \"O(?)\",\n    \"worst_case\": \"O(?)\"\n  },\n  \"space_complexity\": {\n    \"best_case\": \"O(?)\",\n    \"average_case\": \"O(?)\",\n    \"worst_case\": \"O(?)\"\n  },\n  \"explanation\": \"Brief explanation of why these complexities apply, mentioning key factors like loops, recursion, data structures used, etc.\"\n}\n\nCode language: "
  /** Between the descriptive language line and the fence's language tag. */
  const PromptBeforeFence := "\n\nCode to analyze:\n```"
  /** Between the fence's language tag and the code. */
  const PromptBeforeCode := "\n"
  /** After the code: the closing fence. */
  const PromptOutro := "\n```"

  /** The analysis prompt: two language slots and one code slot. */
  const PromptTemplate := PromptIntro + LanguageTag + PromptBeforeFence + LanguageTag
                          + PromptBeforeCode + CodeTag + PromptOutro

  /** The prompt sent to the model: every language slot is filled first, then
      the first remaining code slot. */
  function BuildPrompt(code: string, language: string): string {
    ReplaceFirst(ReplaceAll(PromptTemplate, LanguageTag, language), CodeTag, code)
  }

  // ---------------------------------------------------------------------------
  // Where the slots are found

  /** Two opening braces at index `k`: how every slot tag begins. */
  predicate DoubleBraceAt(s: string, k: int) {
    0 <= k && k + 1 < |s| && s[k] == '{' && s[k + 1] == '{'
  }

  /** A piece of template text that can neither hold a slot tag nor end with
      the first half of one. */
  ghost predicate BraceSafe(s: string) {
    (forall k :: !DoubleBraceAt(s, k)) && (s == [] || s[|s| - 1] != '{')
  }

  /** A tag that starts with two braces can only occur where two braces are. */
  lemma TagStartsWithBraces(s: string, tag: string, k: int)
    requires |tag| >= 2 && tag[0] == '{' && tag[1] == '{'
    requires OccursAt(s, tag, k)
    ensures DoubleBraceAt(s, k)
  {
    assert s[k] == s[k..k + |tag|][0];
    assert s[k + 1] == s[k..k + |tag|][1];
  }

  /** No brace-opened tag starts inside the brace-safe slice `s[lo..hi]`. */
  lemma NoTagInBraceSafe(s: string, lo: nat, hi: nat, tag: string)
    requires lo <= hi <= |s| && BraceSafe(s[lo..hi])
    requires |tag| >= 2 && tag[0] == '{' && tag[1] == '{'
    ensures forall k :: lo <= k < hi ==> !OccursAt(s, tag, k)
  {
    var piece := s[lo..hi];
    forall k | lo <= k < hi ensures !OccursAt(s, tag, k) {
      if OccursAt(s, tag, k) {
        TagStartsWithBraces(s, tag, k);
        assert s[k] == piece[k - lo];
        if k + 1 < hi {
          assert s[k + 1] == piece[k + 1 - lo];
          assert DoubleBraceAt(piece, k - lo);
        }
      }
    }
  }

  /** No occurrence of `pat` starts inside the slice `s[lo..hi]` when the
      slice does not contain it and the character right after the slice is
      foreign to `pat`. */
  lemma NoTagInGuardedSlice(s: string, lo: nat, hi: nat, pat: string)
    requires lo <= hi < |s|
    requires !Contains(s[lo..hi], pat)
    requires s[hi] !in pat
    ensures forall k :: lo <= k < hi ==> !OccursAt(s, pat, k)
  {
    var piece := s[lo..hi];
    forall k | lo <= k < hi ensures !OccursAt(s, pat, k) {
      if OccursAt(s, pat, k) {
        if k + |pat| <= hi {
          forall i | 0 <= i < |pat| ensures piece[k - lo + i] == pat[i] {
            assert s[k..k + |pat|][i] == s[k + i];
          }
          assert piece[k - lo..k - lo + |pat|] == pat;
          assert OccursAt(piece, pat, k - lo);
        }
      }
    }
  }

  /** What the layout lemmas need of the two slot tags: both open with two
      braces, they differ at their third character, and the code tag holds
      no other pair of braces. */
  ghost predicate SlotTags(lt: string, ct: string) {
    && |lt| >= 3 && lt[0] == '{' && lt[1] == '{'
    && |ct| >= 3 && ct[0] == '{' && ct[1] == '{'
    && lt[2] != ct[2]
    && (forall k :: DoubleBraceAt(ct, k) ==> k == 0)
    && ct[|ct| - 1] != '{'
  }

  /** The pieces between the slots of a two-language, one-code template have
      what the layout lemmas need. */
  ghost predicate TemplatePieces(ct: string, intro: string, beforeFence: string, beforeCode: string, outro: string) {
    && BraceSafe(intro) && BraceSafe(beforeFence) && BraceSafe(beforeCode) && BraceSafe(outro)
    && beforeFence != [] && beforeFence[0] !in ct
    && beforeCode != [] && beforeCode[0] !in ct
  }

  /** The template's own tags have that shape. */
  lemma TagsAreSlotTags()
    ensures SlotTags(LanguageTag, CodeTag)
  {
  }

  /** The text after the second language slot holds no language slot. */
  lemma NoLanguageTagInTail(lt: string, ct: string, beforeCode: string, outro: string)
    requires SlotTags(lt, ct)
    requires BraceSafe(beforeCode) && BraceSafe(outro)
    ensures forall k :: !OccursAt(beforeCode + ct + outro, lt, k)
  {
    var tail := beforeCode + ct + outro;
    var c := |beforeCode|;
    assert tail[..c] == beforeCode;
    assert tail[c + |ct|..|tail|] == outro;
    NoTagInBraceSafe(tail, 0, c, lt);
    NoTagInBraceSafe(tail, c + |ct|, |tail|, lt);
    forall k | c <= k < c + |ct| ensures !OccursAt(tail, lt, k) {
      var m := k - c;
      assert tail[k] == ct[m];
      if m == 0 {
        assert tail[k + 2] == ct[2];
        Mismatch(tail, lt, k, 2);
      } else if m + 1 < |ct| {
        assert tail[k + 1] == ct[m + 1];
        assert !DoubleBraceAt(ct, m);
        Mismatch(tail, lt, k, if tail[k] != '{' then 0 else 1);
      } else {
        Mismatch(tail, lt, k, 0);
      }
    }
  }

  /** A pattern does not occur where one of its characters is contradicted. */
  lemma Mismatch(s: string, pat: string, k: int, i: int)
    requires 0 <= i < |pat| && 0 <= k && k + i < |s| && s[k + i] != pat[i]
    ensures !OccursAt(s, pat, k)
  {
    if k + |pat| <= |s| {
      assert s[k..k + |pat|][i] == s[k + i];
    }
  }

  /** Replacing every language tag in text that opens with a brace-safe
      piece and a tag fills that tag and moves on. */
  lemma FillAfterSafe(a: string, lt: string, b: string, language: string)
    requires |lt| >= 2 && lt[0] == '{' && lt[1] == '{'
    requires BraceSafe(a)
    ensures ReplaceAll(a + lt + b, lt, language) == a + language + ReplaceAll(b, lt, language)
  {
    var t := a + lt + b;
    assert t[..|a|] == a;
    NoTagInBraceSafe(t, 0, |a|, lt);
    ReplaceAllAfter(a, lt, b, language);
  }

  /** Filling the language slots of a template whose text pieces are
      brace-safe puts the language into both slots and leaves the code slot. */
  lemma FillLanguage(lt: string, ct: string, intro: string, beforeFence: string, beforeCode: string,
                     outro: string, language: string)
    requires SlotTags(lt, ct) && TemplatePieces(ct, intro, beforeFence, beforeCode, outro)
    ensures ReplaceAll(intro + lt + beforeFence + lt + beforeCode + ct + outro, lt, language)
            == intro + language + beforeFence + language + beforeCode + ct + outro
  {
    var tail := beforeCode + ct + outro;
    var rest := beforeFence + lt + tail;
    calc {
      ReplaceAll(intro + lt + beforeFence + lt + beforeCode + ct + outro, lt, language);
      { assert intro + lt + beforeFence + lt + beforeCode + ct + outro == intro + lt + rest; }
      ReplaceAll(intro + lt + rest, lt, language);
      { FillAfterSafe(intro, lt, rest, language); }
      intro + language + ReplaceAll(rest, lt, language);
      { FillAfterSafe(beforeFence, lt, tail, language); }
      intro + language + (beforeFence + language + ReplaceAll(tail, lt, language));
      { NoLanguageTagInTail(lt, ct, beforeCode, outro); ReplaceAllAbsent(tail, lt, language); }
      intro + language + (beforeFence + language + tail);
      intro + language + beforeFence + language + beforeCode + ct + outro;
    }
  }

  /** No occurrence of `pat` starts in `s` before index `n`. */
  ghost predicate NoneBefore(s: string, pat: string, n: int) {
    forall k :: 0 <= k < n ==> !OccursAt(s, pat, k)
  }

  /** A brace-safe prefix holds no start of a brace-opened tag. */
  lemma SafePrefix(p: string, s: string, tag: string)
    requires BraceSafe(p) && |tag| >= 2 && tag[0] == '{' && tag[1] == '{'
    ensures NoneBefore(p + s, tag, |p|)
  {
    assert (p + s)[..|p|] == p;
    NoTagInBraceSafe(p + s, 0, |p|, tag);
  }

  /** A prefix without `pat`, followed by a character foreign to `pat`,
      holds no start of `pat`. */
  lemma GuardedPrefix(p: string, s: string, pat: string)
    requires !Contains(p, pat) && s != [] && s[0] !in pat
    ensures NoneBefore(p + s, pat, |p|)
  {
    assert (p + s)[..|p|] == p;
    assert (p + s)[|p|] == s[0];
    NoTagInGuardedSlice(p + s, 0, |p|, pat);
  }

  /** Occurrence-freedom of a prefix and of the text after it combine. */
  lemma ExtendNoneBefore(p: string, s: string, pat: string, n: int)
    requires NoneBefore(p + s, pat, |p|) && NoneBefore(s, pat, n)
    ensures NoneBefore(p + s, pat, |p| + n)
  {
    forall k | |p| <= k < |p| + n ensures !OccursAt(p + s, pat, k) {
      if OccursAt(p + s, pat, k) {
        forall i | 0 <= i < |pat| ensures s[k - |p| + i] == pat[i] {
          assert (p + s)[k..k + |pat|][i] == (p + s)[k + i];
        }
        assert s[k - |p|..k - |p| + |pat|] == pat;
        assert OccursAt(s, pat, k - |p|);
      }
    }
  }

  /** In the template with the language filled in, the code slot is the first
      code tag, provided the language does not contain the tag. */
  lemma CodeSlotIsFirst(lt: string, ct: string, intro: string, beforeFence: string, beforeCode: string,
                        outro: string, language: string)
    requires SlotTags(lt, ct) && TemplatePieces(ct, intro, beforeFence, beforeCode, outro)
    requires !Contains(language, ct)
    ensures NoneBefore(intro + language + beforeFence + language + beforeCode + ct + outro, ct,
                       |intro + language + beforeFence + language + beforeCode|)
  {
    var s5 := beforeCode + (ct + outro);
    var s4 := language + s5;
    var s3 := beforeFence + s4;
    var s2 := language + s3;
    var s1 := intro + s2;
    SafePrefix(beforeCode, ct + outro, ct);
    GuardedPrefix(language, s5, ct);
    ExtendNoneBefore(language, s5, ct, |beforeCode|);
    SafePrefix(beforeFence, s4, ct);
    ExtendNoneBefore(beforeFence, s4, ct, |language| + |beforeCode|);
    assert s3[0] == beforeFence[0];
    GuardedPrefix(language, s3, ct);
    ExtendNoneBefore(language, s3, ct, |beforeFence| + |language| + |beforeCode|);
    SafePrefix(intro, s2, ct);
    ExtendNoneBefore(intro, s2, ct, |language| + |beforeFence| + |language| + |beforeCode|);
    assert s1 == intro + language + beforeFence + language + beforeCode + ct + outro;
  }

  /** The full layout: when the language does not itself contain the code
      tag, the prompt is the template with the language in both language
      slots and the code in the code slot. */
  lemma PromptLayout(lt: string, ct: string, intro: string, beforeFence: string, beforeCode: string,
                     outro: string, code: string, language: string)
    requires SlotTags(lt, ct) && TemplatePieces(ct, intro, beforeFence, beforeCode, outro)
    requires !Contains(language, ct)
    ensures ReplaceFirst(ReplaceAll(intro + lt + beforeFence + lt + beforeCode + ct + outro, lt, language), ct, code)
            == intro + language + beforeFence + language + beforeCode + code + outro
  {
    var a := intro + language + beforeFence + language + beforeCode;
    calc {
      ReplaceFirst(ReplaceAll(intro + lt + beforeFence + lt + beforeCode + ct + outro, lt, language), ct, code);
      { FillLanguage(lt, ct, intro, beforeFence, beforeCode, outro, language); }
      ReplaceFirst(a + ct + outro, ct, code);
      { CodeSlotIsFirst(lt, ct, intro, beforeFence, beforeCode, outro, language);
        ReplaceFirstAfter(a, ct, outro, code); }
      a + code + outro;
    }
  }

  /** Because the language is filled in first, a language that itself
      contains the code tag receives the code in its first copy, and the
      template's own code slot stays unfilled. */
  lemma CodeLandsInLanguage(lt: string, ct: string, intro: string, beforeFence: string, beforeCode: string,
                            outro: string, code: string, language: string, m: nat)
    requires SlotTags(lt, ct) && TemplatePieces(ct, intro, beforeFence, beforeCode, outro)
    requires FirstOccurrence(language, ct, m)
    ensures ReplaceFirst(ReplaceAll(intro + lt + beforeFence + lt + beforeCode + ct + outro, lt, language), ct, code)
            == intro + language[..m] + code + language[m + |ct|..]
               + beforeFence + language + beforeCode + ct + outro
  {
    var rest := beforeFence + language + beforeCode + ct + outro;
    var a := intro + language[..m];
    var b := language[m + |ct|..] + rest;
    FillLanguage(lt, ct, intro, beforeFence, beforeCode, outro, language);
    Regroup(intro, language, beforeFence, beforeCode, ct, outro);
    FilledSplitsAtLanguageTag(intro, language, rest, ct, m);
    ReplaceFirstAt(intro + (language + rest), a, b, ct, code);
    RegroupResult(a, code, language[m + |ct|..], rest, intro, language[..m], beforeFence, language, beforeCode, ct, outro);
  }

  /** The filled template, grouped as the intro and then everything after it. */
  lemma Regroup(intro: string, language: string, beforeFence: string, beforeCode: string, ct: string, outro: string)
    ensures intro + language + beforeFence + language + beforeCode + ct + outro
            == intro + (language + (beforeFence + language + beforeCode + ct + outro))
  {
  }

  /** The replaced text, regrouped as one flat concatenation. */
  lemma RegroupResult(a: string, code: string, tail: string, rest: string, intro: string, head: string,
                      beforeFence: string, language: string, beforeCode: string, ct: string, outro: string)
    requires a == intro + head && rest == beforeFence + language + beforeCode + ct + outro
    ensures a + code + (tail + rest)
            == intro + head + code + tail + beforeFence + language + beforeCode + ct + outro
  {
  }

  /** Text that opens with a brace-safe piece and then a language whose first
      code tag is at `m` has its first code tag right there. */
  lemma FilledSplitsAtLanguageTag(intro: string, language: string, rest: string, ct: string, m: nat)
    requires BraceSafe(intro) && |ct| >= 2 && ct[0] == '{' && ct[1] == '{'
    requires FirstOccurrence(language, ct, m)
    ensures intro + (language + rest) == (intro + language[..m]) + ct + (language[m + |ct|..] + rest)
    ensures NoneBefore(intro + (language + rest), ct, |intro + language[..m]|)
  {
    SplitAtOccurrence(intro, language, rest, ct, m);
    FirstOccurrenceExtends(language, rest, ct, m);
    SafePrefix(intro, language + rest, ct);
    ExtendNoneBefore(intro, language + rest, ct, m);
  }

  /** Replacing the first occurrence when it is known to sit right after `a`. */
  lemma ReplaceFirstAt(s: string, a: string, b: string, pat: string, rep: string)
    requires s == a + pat + b && NoneBefore(s, pat, |a|)
    ensures ReplaceFirst(s, pat, rep) == a + rep + b
  {
    ReplaceFirstAfter(a, pat, b, rep);
  }

  /** A first occurrence in `language` is still the first one once more text follows. */
  lemma FirstOccurrenceExtends(language: string, rest: string, pat: string, m: nat)
    requires FirstOccurrence(language, pat, m)
    ensures NoneBefore(language + rest, pat, m)
  {
    forall k | 0 <= k < m ensures !OccursAt(language + rest, pat, k) {
      if OccursAt(language + rest, pat, k) {
        forall i | 0 <= i < |pat| ensures language[k + i] == pat[i] {
          assert k + i < |language|;
          assert (language + rest)[k..k + |pat|][i] == (language + rest)[k + i];
        }
        assert language[k..k + |pat|] == pat;
        assert OccursAt(language, pat, k);
      }
    }
  }

  /** Cutting a string at an occurrence of `pat`. */
  lemma SplitAtOccurrence(intro: string, language: string, rest: string, pat: string, m: nat)
    requires OccursAt(language, pat, m)
    ensures intro + (language + rest) == (intro + language[..m]) + pat + (language[m + |pat|..] + rest)
  {
    assert language == language[..m] + pat + language[m + |pat|..];
  }

  /** The template's fixed pieces after the introduction are brace-safe. */
  lemma TemplateTailPiecesSafe()
    ensures BraceSafe(PromptBeforeFence) && BraceSafe(PromptBeforeCode) && BraceSafe(PromptOutro)
    ensures PromptBeforeFence[0] !in CodeTag && PromptBeforeCode[0] !in CodeTag
  {
    assert '{' !in PromptBeforeFence;
  }

  /** The analysis prompt: given an introduction free of slot braces, a
      language without the code tag lands in both language slots and the
      code in the code slot, each verbatim. */
  lemma BuildPromptLayout(code: string, language: string)
    requires BraceSafe(PromptIntro)
    requires !Contains(language, CodeTag)
    ensures BuildPrompt(code, language)
            == PromptIntro + language + PromptBeforeFence + language + PromptBeforeCode + code + PromptOutro
  {
    TagsAreSlotTags();
    TemplateTailPiecesSafe();
    PromptLayout(LanguageTag, CodeTag, PromptIntro, PromptBeforeFence, PromptBeforeCode, PromptOutro, code, language);
  }

  /** A language that contains the code tag swallows the code: the code is
      spliced into the first copy of the language and the template's code
      slot is sent unfilled. */
  lemma BuildPromptCodeInLanguage(code: string, language: string, m: nat)
    requires BraceSafe(PromptIntro)
    requires FirstOccurrence(language, CodeTag, m)
    ensures BuildPrompt(code, language)
            == PromptIntro + language[..m] + code + language[m + |CodeTag|..]
               + PromptBeforeFence + language + PromptBeforeCode + CodeTag + PromptOutro
  {
    TagsAreSlotTags();
    TemplateTailPiecesSafe();
    CodeLandsInLanguage(LanguageTag, CodeTag, PromptIntro, PromptBeforeFence, PromptBeforeCode, PromptOutro,
                        code, language, m);
  }

  // ---------------------------------------------------------------------------
  // Recovering the JSON candidate from the reply

  const Fence := "```"
  const JsonTag := "json"

  /** Where the fenced content starts after an opening fence at `i`: a literal
      lower-case `json` tag right after the fence is skipped. */
  function ContentStart(text: string, i: nat): nat {
    if OccursAt(text, JsonTag, i + |Fence|) then i + |Fence| + |JsonTag| else i + |Fence|
  }

  /** The candidate JSON text: the trimmed content of the first fenced block,
      or the whole reply when no opening fence has a closing one after it.
      (The regular expression's `\s*` before its captured group is subsumed by
      the trim; see `TrimSkipsLeadingWhitespace`.) */
  function CandidateJson(text: string): string {
    match IndexOf(text, Fence, 0)
    case None => text
    case Some(i) =>
      match IndexOf(text, Fence, ContentStart(text, i))
      case None => text
      case Some(j) => Trim(text[ContentStart(text, i)..j])
  }

  /** A fence starting at `j` lies after the opening fence at `i` (and after
      its tag) exactly when it starts at `i + 3` or later: the tag letters are
      not backticks. */
  lemma ClosingFenceAfterTag(text: string, i: nat, j: int)
    requires OccursAt(text, Fence, i) && OccursAt(text, Fence, j) && i + |Fence| <= j
    ensures ContentStart(text, i) <= j
  {
    if OccursAt(text, JsonTag, i + |Fence|) && j < i + |Fence| + |JsonTag| {
      CharOfOccurrence(text, Fence, j, 0);
      CharOfOccurrence(text, JsonTag, i + |Fence|, j - i - |Fence|);
      assert false;
    }
  }

  /** The characters of an occurrence are those of the pattern. */
  lemma CharOfOccurrence(s: string, pat: string, k: int, d: int)
    requires OccursAt(s, pat, k) && 0 <= d < |pat|
    ensures s[k + d] == pat[d]
  {
    assert s[k..k + |pat|][d] == s[k + d];
  }

  /** With a complete fence pair, the candidate is the content between the
      first opening fence and the first closing fence after it, trimmed, with
      a lower-case `json` tag dropped and any other tag (`python`, `JSON`)
      kept. */
  lemma CandidateFromFirstPair(text: string, i: nat, j: nat)
    requires FirstOccurrence(text, Fence, i)
    requires OccursAt(text, Fence, j) && i + |Fence| <= j
    requires forall k :: i + |Fence| <= k < j ==> !OccursAt(text, Fence, k)
    ensures OccursAt(text, JsonTag, i + 3) ==> i + 7 <= j && CandidateJson(text) == Trim(text[i + 7..j])
    ensures !OccursAt(text, JsonTag, i + 3) ==> CandidateJson(text) == Trim(text[i + 3..j])
  {
    IndexOfFrom(text, Fence, 0, i);
    ClosingFenceAfterTag(text, i, j);
    IndexOfFrom(text, Fence, ContentStart(text, i), j);
  }

  /** With no complete fence pair (zero fences, or only fences that overlap
      the first one), the candidate is the entire reply, untrimmed. */
  lemma CandidateWithoutPair(text: string)
    requires forall i, j :: OccursAt(text, Fence, i) && OccursAt(text, Fence, j) ==> j < i + |Fence|
    ensures CandidateJson(text) == text
  {
    match IndexOf(text, Fence, 0)
    case None =>
    case Some(i) =>
      if IndexOf(text, Fence, ContentStart(text, i)).Some? {
        assert false;
      }
  }

  // ---------------------------------------------------------------------------
  // Building the report

  const NotAvailable := JString("N/A")
  const NoExplanation := JString("No explanation provided")
  const DefaultError := "Failed to analyze code"
  /** The message of the TypeError thrown by reading a property of `null`. */
  const NullAccessError := "Cannot read properties of null (reading 'time_complexity')"

  /** Best, average and worst case of one complexity measure. Leaves hold the
      parsed value itself: any truthy JSON value is kept, not only strings. */
  datatype Complexity = Complexity(bestCase: Json, averageCase: Json, worstCase: Json)

  /** The success payload returned to the controller. */
  datatype Report = Report(timeComplexity: Complexity, spaceComplexity: Complexity,
                           explanation: Json, rawResponse: string)

  /** `{success: true, data}` or `{success: false, error}`. */
  datatype Outcome = Analyzed(data: Report) | AnalysisFailed(error: string)

  /** `analysis[group]?.[leaf]`. */
  function LeafValue(analysis: Json, group: string, leaf: string): Option<Json>
    requires !analysis.JNull?
  {
    OptionalMember(Member(analysis, group), leaf)
  }

  /** The three leaves of one complexity group, each with its fallback. */
  function ReadComplexity(analysis: Json, group: string): Complexity
    requires !analysis.JNull?
  {
    Complexity(OrElse(LeafValue(analysis, group, "best_case"), NotAvailable),
               OrElse(LeafValue(analysis, group, "average_case"), NotAvailable),
               OrElse(LeafValue(analysis, group, "worst_case"), NotAvailable))
  }

  /** The report built from a parsed, non-null reply. */
  function BuildReport(analysis: Json, responseText: string): Report
    requires !analysis.JNull?
  {
    Report(ReadComplexity(analysis, "time_complexity"),
           ReadComplexity(analysis, "space_complexity"),
           OrElse(Member(analysis, "explanation"), NoExplanation),
           responseText)
  }

  /** `error.message || 'Failed to analyze code'`. */
  function FailureMessage(message: string): (r: string)
    ensures r != ""
    ensures message != "" ==> r == message
  {
    if message == "" then DefaultError else message
  }

  /** `analyzeCode(code, language)`: build the prompt, call the model, extract
      the candidate, parse it and build the report; every exception becomes a
      failure outcome. */
  function AnalyzeCode(code: string, language: string,
                       generate: string -> Result<string, string>,
                       parse: string -> Result<Json, string>): (r: Outcome)
    ensures r.Analyzed? <==>
              && generate(BuildPrompt(code, language)).Success?
              && parse(CandidateJson(generate(BuildPrompt(code, language)).value)).Success?
              && parse(CandidateJson(generate(BuildPrompt(code, language)).value)).value != JNull
    ensures r.Analyzed? ==> r.data.rawResponse == generate(BuildPrompt(code, language)).value
    ensures r.AnalysisFailed? ==> r.error != ""
  {
    match generate(BuildPrompt(code, language))
    case Failure(message) => AnalysisFailed(FailureMessage(message))
    case Success(responseText) =>
      match parse(CandidateJson(responseText))
      case Failure(message) => AnalysisFailed(FailureMessage(message))
      case Success(analysis) =>
        if analysis.JNull? then AnalysisFailed(NullAccessError)
        else Analyzed(BuildReport(analysis, responseText))
  }

  /** Each leaf of the report is the parsed leaf when that is truthy and the
      fallback otherwise, so no falsy value ever reaches the report. */
  lemma ReportLeaves(analysis: Json, responseText: string, group: string, leaf: string)
    requires !analysis.JNull?
    requires group in {"time_complexity", "space_complexity"}
    requires leaf in {"best_case", "average_case", "worst_case"}
    ensures var c := if group == "time_complexity" then BuildReport(analysis, responseText).timeComplexity
                     else BuildReport(analysis, responseText).spaceComplexity;
            var got := if leaf == "best_case" then c.bestCase else if leaf == "average_case" then c.averageCase else c.worstCase;
            var v := LeafValue(analysis, group, leaf);
            && (v.Some? && Truthy(v.value) ==> got == v.value)
            && (!(v.Some? && Truthy(v.value)) ==> got == NotAvailable)
            && Truthy(got)
  {
  }

  /** The explanation is the parsed explanation when truthy, else the
      placeholder. */
  lemma ReportExplanation(analysis: Json, responseText: string)
    requires !analysis.JNull?
    ensures var e := Member(analysis, "explanation");
            && (e.Some? && Truthy(e.value) ==> BuildReport(analysis, responseText).explanation == e.value)
            && (!(e.Some? && Truthy(e.value)) ==> BuildReport(analysis, responseText).explanation == NoExplanation)
  {
  }

  /** The all-defaults report. */
  function DefaultReport(responseText: string): Report {
    Report(Complexity(NotAvailable, NotAvailable, NotAvailable),
           Complexity(NotAvailable, NotAvailable, NotAvailable),
           NoExplanation, responseText)
  }

  /** Wrong shape is not an error: an empty object, and any parsed value that
      is not an object (a number, a string, a boolean, an array), yield the
      all-defaults report. */
  lemma WrongShapeDefaults(analysis: Json, responseText: string)
    requires !analysis.JNull?
    requires !analysis.JObject? || analysis == JObject([])
    ensures BuildReport(analysis, responseText) == DefaultReport(responseText)
  {
  }

  /** A reply that is exactly the requested JSON object, with non-empty
      strings everywhere, is reported verbatim. */
  lemma WellFormedReplyVerbatim(tb: string, ta: string, tw: string, sb: string, sa: string, sw: string,
                                explanation: string, responseText: string)
    requires tb != "" && ta != "" && tw != "" && sb != "" && sa != "" && sw != "" && explanation != ""
    ensures BuildReport(JObject([("time_complexity", CaseObject(tb, ta, tw)),
                                 ("space_complexity", CaseObject(sb, sa, sw)),
                                 ("explanation", JString(explanation))]), responseText)
            == Report(Complexity(JString(tb), JString(ta), JString(tw)),
                      Complexity(JString(sb), JString(sa), JString(sw)),
                      JString(explanation), responseText)
  {
    var obj := JObject([("time_complexity", CaseObject(tb, ta, tw)),
                        ("space_complexity", CaseObject(sb, sa, sw)),
                        ("explanation", JString(explanation))]);
    TopMembers(CaseObject(tb, ta, tw), CaseObject(sb, sa, sw), JString(explanation));
    GroupInRequestedShape(obj, "time_complexity", tb, ta, tw);
    GroupInRequestedShape(obj, "space_complexity", sb, sa, sw);
  }

  /** The three top-level members of the requested shape read back. */
  lemma TopMembers(time: Json, space: Json, explanation: Json)
    ensures var obj := JObject([("time_complexity", time), ("space_complexity", space), ("explanation", explanation)]);
            && Member(obj, "time_complexity") == Some(time)
            && Member(obj, "space_complexity") == Some(space)
            && Member(obj, "explanation") == Some(explanation)
  {
    var top := [("time_complexity", time), ("space_complexity", space), ("explanation", explanation)];
    assert |"time_complexity"| != |"space_complexity"| && |"time_complexity"| != |"explanation"|;
    assert |"space_complexity"| != |"explanation"|;
    LastBindingAt(top, 0);
    LastBindingAt(top, 1);
    LastBindingAt(top, 2);
  }

  /** A group in the requested shape with non-empty strings is read verbatim. */
  lemma GroupInRequestedShape(analysis: Json, group: string, best: string, average: string, worst: string)
    requires !analysis.JNull? && Member(analysis, group) == Some(CaseObject(best, average, worst))
    requires best != "" && average != "" && worst != ""
    ensures ReadComplexity(analysis, group) == Complexity(JString(best), JString(average), JString(worst))
  {
    CaseObjectLeaves(best, average, worst);
  }

  /** The requested shape of one complexity group. */
  function CaseObject(best: string, average: string, worst: string): Json {
    JObject([("best_case", JString(best)), ("average_case", JString(average)), ("worst_case", JString(worst))])
  }

  /** The three leaves of a group in the requested shape read back. */
  lemma CaseObjectLeaves(best: string, average: string, worst: string)
    ensures Member(CaseObject(best, average, worst), "best_case") == Some(JString(best))
    ensures Member(CaseObject(best, average, worst), "average_case") == Some(JString(average))
    ensures Member(CaseObject(best, average, worst), "worst_case") == Some(JString(worst))
  {
    var m := CaseObject(best, average, worst).members;
    LastBindingAt(m, 0);
    LastBindingAt(m, 1);
    LastBindingAt(m, 2);
  }

  /** The leniency boundary: bad syntax fails the whole call with the
      parser's message, while any non-null parsed value succeeds. */
  lemma SyntaxFailsShapeDoesNot(code: string, language: string,
                                generate: string -> Result<string, string>,
                                parse: string -> Result<Json, string>)
    requires generate(BuildPrompt(code, language)).Success?
    ensures var candidate := CandidateJson(generate(BuildPrompt(code, language)).value);
            && (parse(candidate).Failure? ==>
                  AnalyzeCode(code, language, generate, parse) == AnalysisFailed(FailureMessage(parse(candidate).error)))
            && (parse(candidate) == Success(JNull) ==>
                  AnalyzeCode(code, language, generate, parse) == AnalysisFailed(NullAccessError))
            && (parse(candidate).Success? && parse(candidate).value != JNull ==>
                  AnalyzeCode(code, language, generate, parse)
                  == Analyzed(BuildReport(parse(candidate).value, generate(BuildPrompt(code, language)).value)))
  {
  }

  /** A failing model call fails the analysis with its own message (or the
      default one), whatever the parser would have said. */
  lemma ModelFailure(code: string, language: string,
                     generate: string -> Result<string, string>,
                     parse: string -> Result<Json, string>, otherParse: string -> Result<Json, string>)
    requires generate(BuildPrompt(code, language)).Failure?
    ensures AnalyzeCode(code, language, generate, parse)
            == AnalysisFailed(FailureMessage(generate(BuildPrompt(code, language)).error))
            == AnalyzeCode(code, language, generate, otherParse)
  {
  }
}
