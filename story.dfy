/**
 * The post-processing that `generate_story` applies to the model's output:
 * drop an echoed prompt, cut the text back to its last full sentence and
 * strip it.  The language model and its sampling are not modelled; the text
 * of each returned sequence is an input.  The result is the string handed
 * to the column wrapper.
 */
module Story {
  import opened Wrappers
  import opened Text

  /** One entry of the generator's output list, a dict with key 'generated_text'. */
  datatype Completion = Completion(generatedText: string)

  /**
   * When the model echoed the prompt, the text after it, stripped;
   * otherwise the text as the model returned it.
   */
  function StripEcho(story: string, prompt: string): (r: string)
    ensures prompt <= story ==> NoEdgeSpace(r) && exists i :: StripsTo(story[|prompt|..], i, r)
    ensures !(prompt <= story) ==> r == story
    ensures IsSubstring(r, story)
  {
    if prompt <= story then
      StripSubstring(story[|prompt|..]);
      SuffixSubstring(story, |prompt|);
      SubstringTrans(Strip(story[|prompt|..]), story[|prompt|..], story);
      Strip(story[|prompt|..])
    else
      SelfSubstring(story);
      story
  }

  /**
   * The text up to and including its last '.', or the text unchanged when it
   * has no '.'.
   */
  function TrimToSentence(story: string): (r: string)
    ensures |r| <= |story| && r == story[..|r|]
    ensures '.' in story ==> |r| > 0 && r[|r| - 1] == '.' && '.' !in story[|r|..]
    ensures '.' !in story ==> r == story
  {
    if '.' in story then story[..RFind(story, '.') + 1] else story
  }

  /** Cutting at the last sentence twice cuts no more than once. */
  lemma TrimToSentenceIdempotent(story: string)
    ensures TrimToSentence(TrimToSentence(story)) == TrimToSentence(story)
  {
    var r := TrimToSentence(story);
    if '.' in story {
      assert r[|r| - 1] == '.';
      var r' := TrimToSentence(r);
      assert r[..|r'|] == story[..|r'|];
      assert |r'| == |r|;
    }
  }

  /**
   * The whole tail of `generate_story` after the model call: the string that
   * `textwrap.fill` receives, given the generated text `raw`.
   */
  function PostProcess(raw: string, prompt: string): (r: string)
    ensures NoEdgeSpace(r)
    ensures IsSubstring(r, raw) && |r| <= |raw|
    ensures ('.' in StripEcho(raw, prompt)) <==> (|r| > 0 && r[|r| - 1] == '.')
  {
    var echoFree := StripEcho(raw, prompt);
    var trimmed := TrimToSentence(echoFree);
    TrimStripSubstring(echoFree);
    TrimStripEnding(echoFree);
    SubstringTrans(Strip(trimmed), echoFree, raw);
    SubstringLength(Strip(trimmed), raw);
    Strip(trimmed)
  }

  /** Cutting at the last sentence and stripping leaves a piece of the text. */
  lemma TrimStripSubstring(text: string)
    ensures IsSubstring(Strip(TrimToSentence(text)), text)
  {
    var trimmed := TrimToSentence(text);
    PrefixSubstring(text, |trimmed|);
    StripSubstring(trimmed);
    SubstringTrans(Strip(trimmed), trimmed, text);
  }

  /** A text ending with '.' still ends with it after stripping. */
  lemma PeriodSurvivesStrip(t: string)
    requires |t| > 0 && t[|t| - 1] == '.'
    ensures |Strip(t)| > 0 && Strip(t)[|Strip(t)| - 1] == '.'
  {
    assert !IsSpace('.');
    StripKeepsLast(t);
  }

  /**
   * Cutting at the last sentence and stripping gives a text ending with '.'
   * exactly when the text held a '.'.
   */
  lemma TrimStripEnding(text: string)
    ensures var r := Strip(TrimToSentence(text));
      ('.' in text) <==> (|r| > 0 && r[|r| - 1] == '.')
  {
    var trimmed := TrimToSentence(text);
    if '.' in text {
      PeriodSurvivesStrip(trimmed);
    } else {
      assert trimmed == text;
      StripLacks(trimmed, '.');
    }
  }

  lemma StripEchoEchoed(prompt: string, continuation: string)
    ensures StripEcho(prompt + continuation, prompt) == Strip(continuation)
  {
    var raw := prompt + continuation;
    assert prompt <= raw;
    assert raw[|prompt|..] == continuation;
  }

  /** Cutting a stripped text at its last '.' leaves nothing for a further strip. */
  lemma TrimStripped(s: string)
    requires NoEdgeSpace(s) && '.' in s
    ensures Strip(TrimToSentence(s)) == TrimToSentence(s)
  {
    var t := TrimToSentence(s);
    assert t[0] == s[0] && t[|t| - 1] == '.' && !IsSpace('.');
    StripNoEdgeSpace(t);
  }

  /**
   * With the prompt echoed, the result is the stripped continuation cut at its
   * last sentence; when that continuation holds a '.', the final strip has
   * nothing left to remove.
   */
  lemma PostProcessEchoed(prompt: string, continuation: string)
    ensures PostProcess(prompt + continuation, prompt) == Strip(TrimToSentence(Strip(continuation)))
    ensures '.' in Strip(continuation) ==>
      PostProcess(prompt + continuation, prompt) == TrimToSentence(Strip(continuation))
  {
    StripEchoEchoed(prompt, continuation);
    if '.' in Strip(continuation) {
      TrimStripped(Strip(continuation));
    }
  }

  /**
   * Without the echo, the result is the stretch of the generated text from its
   * first non-whitespace character through its last '.', at `k`; a text
   * without '.' is only stripped.
   */
  lemma PostProcessNotEchoed(raw: string, prompt: string, k: int)
    requires !(prompt <= raw) && k == RFind(raw, '.')
    ensures 0 <= k ==>
              && |raw| - |LStrip(raw)| <= k
              && PostProcess(raw, prompt) == raw[|raw| - |LStrip(raw)|..k + 1]
    ensures k < 0 ==> PostProcess(raw, prompt) == Strip(raw)
  {
    var echoFree := StripEcho(raw, prompt);
    assert echoFree == raw;
    if 0 <= k {
      TrimStripSpan(raw, k);
    } else {
      assert TrimToSentence(raw) == raw;
    }
  }

  /**
   * Cutting at the last '.', at `k`, and stripping keeps the span from the
   * first non-whitespace character through that '.'.
   */
  lemma TrimStripSpan(text: string, k: int)
    requires '.' in text && k == RFind(text, '.')
    ensures |text| - |LStrip(text)| <= k
    ensures Strip(TrimToSentence(text)) == text[|text| - |LStrip(text)|..k + 1]
  {
    assert text[k] == '.' && !IsSpace('.');
    StripThrough(text, k, TrimToSentence(text));
  }

  /**
   * `generate_story` after the call: the first returned sequence is post-processed;
   * an empty output list is the `IndexError` of `out[0]`, here None.
   */
  function FinishStory(out: seq<Completion>, prompt: string): (r: Option<string>)
    ensures r.None? <==> out == []
    ensures r.Some? ==> NoEdgeSpace(r.value) && IsSubstring(r.value, out[0].generatedText)
  {
    if out == [] then None
    else
      Some(PostProcess(out[0].generatedText, prompt))
  }

  /** Sequences after the first one have no effect on the story. */
  lemma FinishStoryFirstOnly(out: seq<Completion>, other: seq<Completion>, prompt: string)
    requires out != [] && other != [] && out[0] == other[0]
    ensures FinishStory(out, prompt) == FinishStory(other, prompt)
  {
  }
}
