# Deepgram transcript extraction, modelled in Dafny

This project models the one piece of logic in the Deepgram speech-to-text
web app that is more than a library call: `extract_transcript` in `app.py`,
which turns the JSON text returned by the transcription service into the
transcript shown to the user (or into one of four error messages), together
with the 100 MB upload size check in `main`.

Modules:

- `Wrappers` (`wrappers.dfy`): `Option` and a failure-compatible `Result`.
- `PyStr` (`pystr.dfy`): the Python string operations the extractor uses:
  `str.strip()` (with CPython's `str.isspace` table written out),
  `" ".join`, `str.split(" ")` (used to state the round trip) and the
  substring test `needle in haystack`.
- `PyJson` (`pyjson.dfy`): a decoded JSON document (`Json`: null, bool,
  number, string, list, dict) and the Python operations applied to it: the
  `in` test (dict key, list membership, substring, or `TypeError`),
  subscripting (`KeyError`, `IndexError`, `TypeError`), and collecting
  `x["word"]` over a list.
- `Transcript` (`transcript.dfy`): `ExtractTranscript` returns an `Outcome`
  (`EmptyResponse`, `InvalidJson`, `InvalidStructure`, `Transcribed`,
  `Failed`); `Message` maps it to the exact string the source returns, and
  `ExtractTranscriptText` is the composition. Decoding (`json.loads`) is the
  parameter `parse: string -> Option<Json>`, `None` standing for a
  `json.JSONDecodeError`. A reference description of the response layout
  (`WordsPath`, `WordTokens`, `YieldsWords`, `Lacks`) in plain field and
  element access is what the lemmas relate the Python-level evaluation to.
- `Upload` (`upload.dfy`): the size check and the steps `main` takes for
  an upload, as a list of effects.

Three points where the code behaves differently from what a reader of its
purpose might expect; the model follows the code:

- Only `"results" in data` and `"channels" in data["results"]` are tested.
  Anything missing deeper (an empty `channels` list, no `alternatives`, no
  `words`, a token without `word`) raises inside the `try` and gets the
  generic `Error extracting transcript: ...` message, not the
  invalid-structure message (`DeepFailures`, `BadTokensFail`).
- N word tokens give a transcript that splits back into the same N words
  when N >= 1 and each word is non-empty and holds no whitespace
  (`SplitRecoversWords`). With zero words the transcript is `""`, which
  splits to `[""]`. A word with a space inside changes the count; a
  leading or trailing word that `strip()` shortens comes back changed, and
  one that is empty or all whitespace disappears.
- `in` is not a key test on every value. On a list it is a membership test,
  on a string a substring test, and on null, a boolean or a number it raises
  `TypeError`. A list or string that does "contain" `results` then fails at
  `data["results"]` (`NonObjectResponses`). Iterating `words` when it is an
  empty dict or an empty string yields no words and gives the transcript `""`.

## Model

| member | source | states |
|---|---|---|
| PyStr.Strip | app.py:59 | the result of `strip()` neither starts nor ends with whitespace |
| PyStr.StripOfUnique | app.py:59 | that description of stripping determines the result: two strips of the same string are equal |
| PyStr.StripEmptyIff | app.py:51 | `s.strip() == ""` holds exactly when every character of `s` is whitespace |
| PyStr.StripTrimmed | app.py:59 | stripping a string that neither starts nor ends with whitespace leaves it unchanged |
| PyStr.StripIsStripOf | app.py:59 | `strip()` returns a slice of the input with only whitespace before and after it |
| PyStr.TrimStartSpec | app.py:59 | trimming the start leaves a suffix of the input, everything cut off is whitespace, and the rest does not start with whitespace |
| PyStr.TrimEndSpec | app.py:59 | trimming the end leaves a prefix of the input, everything cut off is whitespace, and the rest does not end with whitespace |
| PyStr.JoinEnds | app.py:58 | a join of at least one piece starts with the first piece and ends with the last |
| PyStr.Split | app.py:58-59 | splitting always yields at least one piece |
| PyStr.SplitCons | app.py:58-59 | splitting at the first separator peels off the piece before it |
| PyStr.SplitJoin | app.py:58-59 | splitting a join on its one-character separator gives back the pieces, in order, when no piece holds the separator |
| PyStr.HasSubstringIff | app.py:56 | the left-to-right scan for `needle in haystack` succeeds exactly when the needle starts at some position of the haystack |
| PyJson.ContainsMeaning | app.py:56 | `key in v`: a key test on a dict, membership of the string on a list, a substring test on a string, and a TypeError on null, booleans and numbers |
| PyJson.SubscriptAll | app.py:58 | collecting `x["word"]` succeeds exactly when every element has it, yields those values in order, and otherwise raises the first element's exception |
| PyJson.Strings | app.py:58 | `str.join` accepts the items exactly when all are strings, and yields their text in order; otherwise TypeError |
| Transcript.FromDecoded | app.py:56-61 | once decoded, the outcome is always the invalid-structure message, a transcript or a generic failure |
| Transcript.EmptyInput | app.py:51-52 | the empty-response outcome arises exactly for blank input; its message is the fixed text and does not depend on the decoder at all |
| Transcript.DecodeFailure | app.py:62-63 | the invalid-JSON outcome arises exactly for non-blank input that does not decode, and the message ends with the input unchanged |
| Transcript.InvalidStructureIff | app.py:56-61 | the invalid-structure outcome arises exactly when the `results` test, or the `channels` test on `data["results"]`, is false |
| Transcript.InvalidStructureMessageFor | app.py:56-61 | an object without `results`, or whose `results` object lacks `channels`, yields exactly `Error: Invalid JSON structure in API response.` |
| Transcript.NonObjectResponses | app.py:56-65 | a decoded list or string without `results` in the `in` sense is an invalid structure; any other non-dict value fails with TypeError |
| Transcript.WordValuesYield | app.py:58 | iterating `words` and taking each `word` succeeds exactly for a list of tokens with string `word`s, an empty dict or an empty string, and yields those strings |
| Transcript.WordTokensYield | app.py:58 | tokens that all carry a string `word` yield exactly those strings, in order |
| Transcript.TranscriptWordsIff | app.py:57-58 | descending from `results` succeeds exactly when `channels[0].alternatives[0].words` exists and yields strings, and then yields them |
| Transcript.TranscribedIff | app.py:56-59 | a transcript is produced exactly when the words path exists and yields strings; it is those strings joined by single spaces, in order, then stripped |
| Transcript.TranscribedWith | app.py:56-59 | for given word strings at the words path, the outcome is their stripped space-join |
| Transcript.SuccessJoin | app.py:55-59 | when every token at `results.channels[0].alternatives[0].words` has a string `word`, the returned text is the stripped space-join of those words, in order |
| Transcript.TranscriptTrimmed | app.py:59 | a returned transcript never starts or ends with whitespace |
| Transcript.SplitRecoversWords | app.py:58-59 | when N >= 1 and all N words are non-empty and hold no whitespace, splitting the transcript on a space gives back exactly those N words in order |
| Transcript.NoWordsEmptyTranscript | app.py:58-59 | with no word tokens the transcript is the empty string |
| Transcript.DeepFailures | app.py:57-65 | once `results.channels` exists the outcome is a transcript or a generic failure; a missing deeper step is a failure, an empty `channels` list an IndexError, and a failure's message carries the generic prefix and is never the invalid-structure message |
| Transcript.BadTokensFail | app.py:58-65 | a token object lacking `word` fails with KeyError; if all have `word` but one is not a string, join fails with TypeError |
| Transcript.DescendToWords | app.py:57 | when the words path exists every subscript on the way succeeds and the result is that of iterating `words` |
| Transcript.Decoded | app.py:51-56 | non-blank input that decodes goes on to the structure checks |
| Transcript.SubscriptIsPathStep | app.py:57 | `v[k]` with a string key succeeds exactly when the plain field access finds `k` in a dict, with that value; `v[0]` is the first element of a non-empty list, the first character of a non-empty string, and fails on everything else |
| Transcript.PathHasChannels | app.py:56-57 | a response with the whole words path passes both `in` tests |
| Upload.HandleUpload | app.py:72-96 | no upload does nothing; an upload over 104857600 bytes shows only the size error; transcription is requested exactly when the size is at most 104857600 bytes; an accepted upload saves the file, requests transcription, shows the extractor's output and offers that same text for download, in that order |
| Upload.SizeBoundary | app.py:74-76 | exactly 104857600 bytes is accepted and requested; 104857601 bytes is rejected with no request |

## Left out

- `transcribe_audio` (app.py:14-47): the call to the Deepgram SDK, its timeouts, reading the audio file and the console output. Its result is the parameter `response` of `Upload.HandleUpload`.
- Decoding JSON text (`json.loads`, RFC 8259): the parameter `parse`. Exceptions other than `JSONDecodeError` that decoding can raise (such as a recursion error on very deep nesting) are not modelled.
- Transcript.FaultText: the text after `Error extracting transcript: ` is the exception class name (`KeyError`, `IndexError`, `TypeError`), not Python's `str(e)`, whose wording depends on the interpreter.
- Transcript.ExtractTranscript: the input is always a string; the `not transcription_json` test for `None` is covered only as the empty string, since `transcribe_audio` always returns a string.
- PyJson.Json: numbers are kept as a real value; the int/float distinction, float rounding and the `NaN`, `Infinity` and `-Infinity` that `json.loads` accepts (which `parse` maps to some `JNum`) do not affect the extractor, which only ever raises on numbers or compares them with strings.
- PyJson.Json: Dafny strings hold only Unicode scalar values, so a decoded string with a lone surrogate (from a `"\ud800"` escape) cannot be represented; `strip`, `join` and `in` would treat such a character as ordinary non-whitespace, so no extractor behaviour depends on it.
- Iterating a non-empty dict as `words`: dict key order is not modelled; every key is a string, so the first one raises TypeError whichever it is.
- The Streamlit rendering in `main` (title, subheader, text area, the `wav`/`mp3`/`ogg` type filter of the file picker) and the bytes written to `temp_audio`: only the order of the steps is kept, as `Upload.Effect` values.
- Loading the API key from the environment (app.py:9-12).
