# Mini Story Generator — verified model of its string handling

The Streamlit app in `app.py` asks a pretrained language model to write a
children's story from four fields (character, setting, mood, theme). The only
logic the app owns is two deterministic string transformations, and this
project models those two in Dafny:

* **the prompt builder** (`build_prompt`). It interpolates the four fields into
  a fixed instruction block. The model is `Prompt.BuildPrompt`. For newline-free
  fields, an inverse `Prompt.ParsePrompt` reads the fields back, and the two are
  proved to undo each other.
* **the post-processing that `generate_story` applies to the model's output**.
  It removes an echoed prompt and strips what is left
  (`Story.StripEcho`). It cuts the text back to its last `'.'`
  (`Story.TrimToSentence`). It strips once more (`Story.PostProcess`).
  `Story.FinishStory` picks the first returned sequence. An empty output list
  gives `None`, where Python raises `IndexError` on `out[0]`.

Module `Text` holds the Python string primitives these rely on. It has
`str.strip()` (as `LStrip`/`RStrip`/`Strip`), whose result is proved unique. It
has `str.rfind`, and `str.find`, which the parser uses. Its whitespace test
`IsSpace` writes out Python 3's `str.isspace` set: U+0009..U+000D,
U+001C..U+001F, U+0020, U+0085, U+00A0, U+1680, U+2000..U+200A, U+2028,
U+2029, U+202F, U+205F and U+3000.

Files: `wrappers.dfy` (Option), `text.dfy`, `prompt.dfy`, `story.dfy`.

## Model

| member | source | states |
|---|---|---|
| `Prompt.BuildPrompt` | app.py:20-30 | every prompt starts with the line "Write a short, imaginative story for kids.\n"; its last nine characters are "\n\nStory:\n", that is the line break closing the theme line, a blank line and the "Story:" cue on its own line; its length is 88 plus the lengths of the four fields |
| `Prompt.ParseBuild` | app.py:22-29 | for newline-free character, setting, mood and theme, parsing the built prompt gives back exactly those four fields, in template order |
| `Prompt.BuildParse` | app.py:22-29 | any string the parser accepts is the built prompt of the fields it returns, and those fields are newline-free |
| `Prompt.BuildPromptInjective` | app.py:22-29 | on newline-free fields, two prompts are equal only when all four fields are equal |
| `Prompt.BuildPromptCollides` | app.py:24-25 | for all strings a, b, c: the character a + "\nSetting: " + b with setting c gives the same prompt as the different character a with setting b + "\nSetting: " + c, so the newline-free requirement of the round trip is needed |
| `Text.LStrip` | app.py:45 | the result is the longest suffix of the input that does not start with whitespace; everything removed is whitespace |
| `Text.RStrip` | app.py:45 | the result is the longest prefix of the input that does not end with whitespace; everything removed is whitespace |
| `Text.Strip` | app.py:45 | the result has no whitespace at either end, is no longer than the input, and is the input with runs of whitespace cut from its front and back |
| `Text.StripUnique` | app.py:45 | any string obtained by cutting whitespace runs from both ends that has no whitespace at its ends is the result of `Strip`, so `Strip`'s contract determines it |
| `Text.StripIdempotent` | app.py:50 | stripping an already stripped text changes nothing |
| `Text.StripKeepsLast` | app.py:49-50 | stripping a text whose last character is not whitespace keeps that character as its last one |
| `Text.RFind` | app.py:48 | the result is -1 exactly when the character is absent; otherwise the index holds the character and no later index does |
| `Story.StripEcho` | app.py:44-45 | when the text starts with the prompt, the result is the rest of the text with whitespace cut from both ends; otherwise it is the text unchanged; either way it is a substring of the text |
| `Story.TrimToSentence` | app.py:47-49 | the result is a prefix of the text, never longer; with a '.' present it ends with '.' and no '.' of the text lies after it; without a '.' it is the text unchanged |
| `Story.TrimToSentenceIdempotent` | app.py:47-49 | cutting at the last sentence a second time changes nothing |
| `Story.PostProcess` | app.py:44-50 | the string handed to the wrapper has no whitespace at either end, is a contiguous piece of the generated text and so never longer, and ends with '.' exactly when the text after the echo step held a '.' |
| `Story.TrimStripSubstring` | app.py:47-50 | cutting any text at its last '.' and stripping gives a contiguous piece of that text |
| `Story.TrimStripEnding` | app.py:47-50 | cutting any text at its last '.' and stripping gives a string that ends with '.' exactly when the text held a '.' |
| `Story.TrimStripSpan` | app.py:47-50 | for a text holding a '.', cutting at its last '.' and stripping gives exactly the stretch from the text's first non-whitespace character through that last '.' |
| `Story.TrimStripped` | app.py:45-50 | cutting an already stripped text with a '.' at its last '.' leaves nothing for the final strip to remove |
| `Story.PostProcessEchoed` | app.py:44-50 | for an echoed prompt, the result is the stripped continuation cut at its last '.' and stripped; when that continuation has a '.', the final strip removes nothing |
| `Story.PostProcessNotEchoed` | app.py:44-50 | when the text does not start with the prompt and holds a '.', the result is the text's characters from its first non-whitespace one through its last '.', at index k; when it holds no '.', the result is the text stripped |
| `Story.FinishStory` | app.py:42-50 | no story exactly when the generator returned no sequence; otherwise the string handed to the wrapper has no whitespace at either end and is a piece of the first sequence's generated text |
| `Story.FinishStoryFirstOnly` | app.py:42 | two output lists with the same first sequence give the same story, whatever follows it |

## Left out

- Model loading and caching (`get_generator`, app.py:15-18) calls into the `transformers` library under a Streamlit cache, so it is not modelled.
- The sampling call (`set_seed`, `generator(...)`, app.py:33-40) is not modelled. It runs an external model with random sampling. Its output text is an input of `Story.FinishStory`, and the seed, temperature, top-k, top-p and maximum length have no part in the model.
- `textwrap.fill(..., width=90)` (app.py:50) is a standard-library line wrapper. The model stops at the string passed to it, which `Story.PostProcess` computes.
- Text-to-speech (`save_tts`, app.py:52-58) and the optional-import flag (app.py:8-13) are a foreign library and a file write.
- The Streamlit page (app.py:61-112) is widgets, playback and download only.
- The whitespace test `IsSpace` follows the whitespace set of Python 3's `str.isspace` as listed above. Python takes this set from its Unicode database, so a future Unicode version that adds a whitespace character is not reflected.
- Python strings are sequences of code points and Dafny `string` is a sequence of Unicode scalar values. Lone surrogates, which Python allows, cannot be represented.
