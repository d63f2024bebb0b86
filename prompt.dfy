/**
 * The prompt builder of the story generator: four free-text fields are
 * interpolated into a fixed multi-line instruction block.  Beside it,
 * `ParsePrompt` reads the fields back out of a prompt; it is the inverse
 * the builder is checked against.
 */
module Prompt {
  import opened Wrappers
  import opened Text

  /** The instruction line every prompt opens with. */
  const Header: string := "Write a short, imaginative story for kids.\n"
  const CharacterLabel: string := "Character: "
  const SettingLabel: string := "Setting: "
  const MoodLabel: string := "Mood: "
  const ThemeLabel: string := "Theme: "
  /** The blank line after the theme line, then the cue the story follows. */
  const Closing: string := "\nStory:\n"

  /** Characters the template contributes around the four fields. */
  const TemplateLength: nat := 88

  datatype Fields = Fields(character: string, setting: string, mood: string, theme: string)

  /** A field fits on its template line. */
  predicate OneLine(f: string) {
    '\n' !in f
  }

  predicate AllOneLine(f: Fields) {
    OneLine(f.character) && OneLine(f.setting) && OneLine(f.mood) && OneLine(f.theme)
  }

  /** One labelled template line: the label, the field, a line break. */
  function Line(tag: string, f: string): string {
    tag + f + "\n"
  }

  /**
   * `build_prompt(character, setting, mood, theme)`: the instruction line, the
   * four labelled lines in template order, a blank line and "Story:\n".
   * Every prompt starts with the instruction line, ends with the theme line's
   * break, the blank line and the story cue, and is as long as the template
   * plus its fields.
   */
  function BuildPrompt(character: string, setting: string, mood: string, theme: string): (p: string)
    ensures |p| == TemplateLength + |character| + |setting| + |mood| + |theme|
    ensures Header <= p
    ensures p[|p| - |Closing| - 1..] == "\n" + Closing
  {
    TemplateShape(Header, Line(CharacterLabel, character), Line(SettingLabel, setting),
      Line(MoodLabel, mood), ThemeLabel, theme);
    Header
    + (Line(CharacterLabel, character)
    + (Line(SettingLabel, setting)
    + (Line(MoodLabel, mood)
    + (Line(ThemeLabel, theme)
    + Closing))))
  }

  /** The prompt after its instruction line. */
  function Body(f: Fields): string {
    Line(CharacterLabel, f.character)
    + (Line(SettingLabel, f.setting)
    + (Line(MoodLabel, f.mood)
    + (Line(ThemeLabel, f.theme)
    + Closing)))
  }

  /** Length, first part and last line breaks of a template filled with parts. */
  lemma TemplateShape(h: string, a: string, b: string, c: string, tag: string, f: string)
    ensures var p := h + (a + (b + (c + (Line(tag, f) + Closing))));
      && |p| == |h| + |a| + |b| + |c| + |tag| + |f| + 1 + |Closing|
      && h <= p
      && p[|p| - |Closing| - 1..] == "\n" + Closing
  {
    var p := h + (a + (b + (c + (Line(tag, f) + Closing))));
    assert p == (h + a + b + c + tag + f) + ("\n" + Closing);
  }

  /**
   * The line `tag + f + "\n"` at the front of `s`: the field and the rest of
   * `s` after the line break, or None when the tag is missing or the line has
   * no end.
   */
  function TakeLine(tag: string, s: string): Option<(string, string)> {
    if tag <= s then
      var rest := s[|tag|..];
      var k := Find(rest, '\n');
      if k < 0 then None else Some((rest[..k], rest[k + 1..]))
    else None
  }

  /** Reads the four fields back out of a prompt; None when `p` is not one. */
  function ParsePrompt(p: string): Option<Fields> {
    if Header <= p then ParseBody(p[|Header|..]) else None
  }

  /** Reads the four labelled lines and the closing of a prompt's body. */
  function ParseBody(b: string): Option<Fields> {
    var c :- TakeLine(CharacterLabel, b);
    var s :- TakeLine(SettingLabel, c.1);
    var m :- TakeLine(MoodLabel, s.1);
    var t :- TakeLine(ThemeLabel, m.1);
    if t.1 == Closing then Some(Fields(c.0, s.0, m.0, t.0)) else None
  }

  lemma LineThen(tag: string, f: string, rest: string)
    ensures Line(tag, f) + rest == tag + (f + "\n" + rest)
  {
  }

  lemma {:induction false} TakeLineOf(tag: string, f: string, rest: string)
    requires OneLine(f)
    ensures TakeLine(tag, Line(tag, f) + rest) == Some((f, rest))
  {
    var s := Line(tag, f) + rest;
    assert s[..|tag|] == tag;
    var after := s[|tag|..];
    assert after == f + "\n" + rest;
    var k := Find(after, '\n');
    assert after[|f|] == '\n';
    assert after[..k] == f;
    assert after[k + 1..] == rest;
  }

  lemma {:induction false} TakeLineSome(tag: string, s: string, f: string, rest: string)
    requires TakeLine(tag, s) == Some((f, rest))
    ensures OneLine(f) && s == Line(tag, f) + rest
  {
    assert tag <= s;
    var after := s[|tag|..];
    var k := Find(after, '\n');
    assert 0 <= k && f == after[..k] && rest == after[k + 1..];
    assert after == f + "\n" + rest by {
      assert after == after[..k] + [after[k]] + after[k + 1..];
    }
    assert s == tag + after by {
      assert s == s[..|tag|] + after;
    }
    LineThen(tag, f, rest);
  }

  lemma ParseBodyOf(f: Fields)
    requires AllOneLine(f)
    ensures ParseBody(Body(f)) == Some(f)
  {
    var r3 := Line(ThemeLabel, f.theme) + Closing;
    var r2 := Line(MoodLabel, f.mood) + r3;
    var r1 := Line(SettingLabel, f.setting) + r2;
    TakeLineOf(CharacterLabel, f.character, r1);
    TakeLineOf(SettingLabel, f.setting, r2);
    TakeLineOf(MoodLabel, f.mood, r3);
    TakeLineOf(ThemeLabel, f.theme, Closing);
  }

  lemma ParseBodySome(b: string, f: Fields)
    requires ParseBody(b) == Some(f)
    ensures AllOneLine(f) && b == Body(f)
  {
    var c := TakeLine(CharacterLabel, b).value;
    var s := TakeLine(SettingLabel, c.1).value;
    var m := TakeLine(MoodLabel, s.1).value;
    var t := TakeLine(ThemeLabel, m.1).value;
    assert f == Fields(c.0, s.0, m.0, t.0) && t.1 == Closing;
    TakeLineSome(CharacterLabel, b, c.0, c.1);
    TakeLineSome(SettingLabel, c.1, s.0, s.1);
    TakeLineSome(MoodLabel, s.1, m.0, m.1);
    TakeLineSome(ThemeLabel, m.1, t.0, t.1);
  }

  /** Newline-free fields survive the trip through the template. */
  lemma ParseBuild(f: Fields)
    requires AllOneLine(f)
    ensures ParsePrompt(BuildPrompt(f.character, f.setting, f.mood, f.theme)) == Some(f)
  {
    var p := BuildPrompt(f.character, f.setting, f.mood, f.theme);
    assert p == Header + Body(f);
    assert p[|Header|..] == Body(f);
    ParseBodyOf(f);
  }

  /** Whatever `ParsePrompt` accepts is the prompt of the fields it returns. */
  lemma BuildParse(p: string, f: Fields)
    requires ParsePrompt(p) == Some(f)
    ensures AllOneLine(f)
    ensures p == BuildPrompt(f.character, f.setting, f.mood, f.theme)
  {
    assert Header <= p;
    ParseBodySome(p[|Header|..], f);
    assert p == Header + p[|Header|..];
  }

  /** On newline-free fields, different fields always give different prompts. */
  lemma BuildPromptInjective(f: Fields, g: Fields)
    requires AllOneLine(f) && AllOneLine(g)
    requires BuildPrompt(f.character, f.setting, f.mood, f.theme)
          == BuildPrompt(g.character, g.setting, g.mood, g.theme)
    ensures f == g
  {
    ParseBuild(f);
    ParseBuild(g);
  }

  lemma Regroup(x: string, y: string, a: string, b: string, c: string, rest: string)
    ensures Line(x, a + "\n" + y + b) + (Line(y, c) + rest)
         == Line(x, a) + (Line(y, b + "\n" + y + c) + rest)
  {
  }

  /**
   * A character field that contains a line break followed by the setting label
   * gives the same prompt as a different split of that text between the
   * character and setting fields.
   */
  lemma BuildPromptCollides(a: string, b: string, c: string, mood: string, theme: string)
    ensures a + "\n" + SettingLabel + b != a
    ensures BuildPrompt(a + "\n" + SettingLabel + b, c, mood, theme)
         == BuildPrompt(a, b + "\n" + SettingLabel + c, mood, theme)
  {
    Regroup(CharacterLabel, SettingLabel, a, b, c,
      Line(MoodLabel, mood) + (Line(ThemeLabel, theme) + Closing));
  }
}
