/**
 * extract_transcript (app.py): turns the text returned by the transcription
 * request into the transcript shown to the user, or into one of four error
 * messages. Decoding the text as JSON (`json.loads`) is not modelled; it is
 * the parameter `parse`, which answers None where decoding raises
 * `json.JSONDecodeError`.
 */
module Transcript {
  import opened Wrappers
  import opened PyJson
  import PyStr

  const EmptyResponseMessage: string := "Error: Empty response from Deepgram API."
  const InvalidJsonPrefix: string := "Error: Invalid JSON response. Raw response: "
  const InvalidStructureMessage: string := "Error: Invalid JSON structure in API response."
  const FailurePrefix: string := "Error extracting transcript: "

  /** The five ways extract_transcript can finish. */
  datatype Outcome =
    | EmptyResponse              // blank input, never decoded
    | InvalidJson(raw: string)   // decoding raised JSONDecodeError
    | InvalidStructure           // the `in` tests on `results` / `channels` were false
    | Transcribed(text: string)  // the joined and stripped words
    | Failed(fault: Fault)       // any other exception inside the try block

  /** Stands in for `str(e)` of the exception caught by the generic handler. */
  function FaultText(f: Fault): string
  {
    match f
    case KeyError => "KeyError"
    case IndexError => "IndexError"
    case TypeError => "TypeError"
  }

  /** The string extract_transcript returns for each outcome. */
  function Message(o: Outcome): string
  {
    match o
    case EmptyResponse => EmptyResponseMessage
    case InvalidJson(raw) => InvalidJsonPrefix + raw
    case InvalidStructure => InvalidStructureMessage
    case Transcribed(text) => text
    case Failed(f) => FailurePrefix + FaultText(f)
  }

  /** Consuming the generator `word["word"] for word in words`. Iterating a
      dict yields its keys and iterating a string its characters; both are
      strings, and subscripting a string with "word" raises TypeError.
      Null, booleans and numbers are not iterable. */
  function WordValues(words: Json): Result<seq<Json>, Fault>
  {
    match words
    case JArr(xs) => SubscriptAll(xs, "word")
    case JObj(m) => if m == map[] then Success([]) else Failure(TypeError)
    case JStr(s) => if s == [] then Success([]) else Failure(TypeError)
    case _ => Failure(TypeError)
  }

  /** `data["results"]["channels"][0]["alternatives"][0]["words"]`, iterated,
      starting from the value of `data["results"]`. CPython's `str.join` first
      collects every item of the generator, then checks that each is a string. */
  function TranscriptWords(results: Json): Result<seq<string>, Fault>
  {
    var channels :- Subscript(results, Key("channels"));
    var channel :- Subscript(channels, Position(0));
    var alternatives :- Subscript(channel, Key("alternatives"));
    var alternative :- Subscript(alternatives, Position(0));
    var words :- Subscript(alternative, Key("words"));
    var values :- WordValues(words);
    Strings(values)
  }

  /** The body of the try block once `json.loads` has succeeded. */
  function FromDecoded(data: Json): (r: Outcome)
    ensures r.InvalidStructure? || r.Transcribed? || r.Failed?
  {
    match Contains(data, "results")
    case Failure(f) => Failed(f)
    case Success(false) => InvalidStructure
    case Success(true) =>
      match Subscript(data, Key("results"))
      case Failure(f) => Failed(f)
      case Success(results) =>
        match Contains(results, "channels")
        case Failure(f) => Failed(f)
        case Success(false) => InvalidStructure
        case Success(true) =>
          match TranscriptWords(results)
          case Failure(f) => Failed(f)
          case Success(ws) => Transcribed(PyStr.Strip(PyStr.Join(" ", ws)))
  }

  /** extract_transcript, as an outcome. */
  function ExtractTranscript(input: string, parse: string -> Option<Json>): Outcome
  {
    if input == "" || PyStr.Strip(input) == "" then EmptyResponse
    else
      match parse(input)
      case None => InvalidJson(input)
      case Some(data) => FromDecoded(data)
  }

  /** extract_transcript, as the string it returns. */
  function ExtractTranscriptText(input: string, parse: string -> Option<Json>): string
  {
    Message(ExtractTranscript(input, parse))
  }

  // ---------------------------------------------------------------------
  // A reference description of the response layout, in plain field and
  // element access, against which the Python-level evaluation is proved.

  ghost function Field(v: Json, name: string): Option<Json>
  {
    if v.JObj? && name in v.fields then Some(v.fields[name]) else None
  }

  ghost function First(v: Json): Option<Json>
  {
    if v.JArr? && |v.items| > 0 then Some(v.items[0]) else None
  }

  /** Subscripting with a key is field access on a dict; subscripting with
      position 0 is taking the first element of a list, or the first
      character of a string. */
  lemma SubscriptIsPathStep(v: Json, k: string)
    ensures Subscript(v, Key(k)).Success? <==> Field(v, k).Some?
    ensures Subscript(v, Key(k)).Success? ==> Subscript(v, Key(k)).value == Field(v, k).value
    ensures v.JArr? ==>
              (Subscript(v, Position(0)).Success? <==> First(v).Some?)
              && (First(v).Some? ==> Subscript(v, Position(0)).value == First(v).value)
    ensures v.JStr? ==>
              (Subscript(v, Position(0)).Success? <==> v.s != [])
              && (v.s != [] ==> Subscript(v, Position(0)).value == JStr([v.s[0]]))
    ensures !v.JArr? && !v.JStr? ==> Subscript(v, Position(0)).Failure?
  {
  }

  /** The response has an object `results` holding a key `channels`: the
      only shape the source checks before descending further. */
  ghost predicate HasChannels(data: Json)
  {
    Field(data, "results").Some? && Field(data, "results").value.JObj?
      && "channels" in Field(data, "results").value.fields
  }

  /** The value at `results.channels[0].alternatives[0].words`, if every step exists. */
  ghost function WordsPath(data: Json): Option<Json>
  {
    var results := Field(data, "results");
    if results.None? then None else
    var channels := Field(results.value, "channels");
    if channels.None? then None else
    var channel := First(channels.value);
    if channel.None? then None else
    var alternatives := Field(channel.value, "alternatives");
    if alternatives.None? then None else
    var alternative := First(alternatives.value);
    if alternative.None? then None else
    Field(alternative.value, "words")
  }

  /** `es` are word tokens whose `word` fields are the strings `ws`, in order. */
  ghost predicate WordTokens(es: seq<Json>, ws: seq<string>)
  {
    |es| == |ws|
    && forall k :: 0 <= k < |es| ==> es[k].JObj? && Field(es[k], "word") == Some(JStr(ws[k]))
  }

  /** The word strings that iterating `words` yields, when none of them raises. */
  ghost predicate YieldsWords(words: Json, ws: seq<string>)
  {
    || (words.JArr? && WordTokens(words.items, ws))
    || (words == JObj(map[]) && ws == [])
    || (words == JStr([]) && ws == [])
  }

  /** The `in` test on `key` is false: a missing dict key, a list that does
      not hold the string, or a string that does not contain it. */
  ghost predicate Lacks(v: Json, key: string)
  {
    || (v.JObj? && key !in v.fields)
    || (v.JArr? && JStr(key) !in v.items)
    || (v.JStr? && !exists i :: 0 <= i <= |v.s| && key <= v.s[i..])
  }

  // ---------------------------------------------------------------------
  // Properties.

  /** Blank input gets the fixed empty-response message, whatever the decoder
      would have said: the decoder is never consulted. Only blank input gets it. */
  lemma EmptyInput(input: string, parse: string -> Option<Json>, other: string -> Option<Json>)
    ensures ExtractTranscript(input, parse) == EmptyResponse <==> PyStr.AllWhitespace(input)
    ensures PyStr.AllWhitespace(input) ==>
              ExtractTranscriptText(input, parse) == EmptyResponseMessage
              && ExtractTranscript(input, parse) == ExtractTranscript(input, other)
  {
    PyStr.StripEmptyIff(input);
  }

  /** Non-blank input that does not decode comes back inside the message,
      unchanged; no other input gets this outcome. */
  lemma DecodeFailure(input: string, parse: string -> Option<Json>)
    ensures ExtractTranscript(input, parse) == InvalidJson(input) <==> !PyStr.AllWhitespace(input) && parse(input).None?
    ensures !PyStr.AllWhitespace(input) && parse(input).None? ==>
              var text := ExtractTranscriptText(input, parse);
              InvalidJsonPrefix <= text && text[|InvalidJsonPrefix|..] == input
  {
    PyStr.StripEmptyIff(input);
    if !PyStr.AllWhitespace(input) && parse(input).None? {
      var text := ExtractTranscriptText(input, parse);
      assert text == InvalidJsonPrefix + input;
      assert text[|InvalidJsonPrefix|..] == input;
    }
  }

  /** The invalid-structure outcome arises exactly when the `results` test,
      or the `channels` test on `data["results"]`, is false. */
  lemma InvalidStructureIff(data: Json)
    ensures FromDecoded(data) == InvalidStructure <==>
              || Lacks(data, "results")
              || (Field(data, "results").Some? && Lacks(Field(data, "results").value, "channels"))
  {
    ContainsMeaning(data, "results");
    if Field(data, "results").Some? {
      ContainsMeaning(Field(data, "results").value, "channels");
    }
  }

  /** A decoded object without `results`, or whose `results` object has no
      `channels`, yields exactly the invalid-structure message. */
  lemma InvalidStructureMessageFor(input: string, parse: string -> Option<Json>)
    requires !PyStr.AllWhitespace(input) && parse(input).Some? && parse(input).value.JObj?
    requires var data := parse(input).value;
             || "results" !in data.fields
             || (data.fields["results"].JObj? && "channels" !in data.fields["results"].fields)
    ensures ExtractTranscriptText(input, parse) == InvalidStructureMessage
  {
    PyStr.StripEmptyIff(input);
    InvalidStructureIff(parse(input).value);
  }

  /** On a list `in` is a membership test, on a string a substring test; on
      null, a boolean or a number it raises TypeError. Finding `results` in a
      list or a string then fails at `data["results"]`. */
  lemma NonObjectResponses(data: Json)
    requires !data.JObj?
    ensures FromDecoded(data) == (if Lacks(data, "results") then InvalidStructure else Failed(TypeError))
  {
    ContainsMeaning(data, "results");
  }

  /** The words step succeeds exactly on the shapes YieldsWords
      describes, and then yields those strings. */
  lemma WordValuesYield(words: Json)
    ensures (exists ws :: YieldsWords(words, ws)) <==>
              WordValues(words).Success? && Strings(WordValues(words).value).Success?
    ensures forall ws :: YieldsWords(words, ws) ==> Strings(WordValues(words).value) == Success(ws)
  {
    if words.JArr? {
      var es := words.items;
      var vs := SubscriptAll(es, "word");
      if vs.Success? && Strings(vs.value).Success? {
        var ws := Strings(vs.value).value;
        assert WordTokens(es, ws) by {
          forall k | 0 <= k < |es| ensures es[k].JObj? && Field(es[k], "word") == Some(JStr(ws[k])) {
            assert Subscript(es[k], Key("word")).Success?;
          }
        }
        assert YieldsWords(words, ws);
      }
      forall ws | YieldsWords(words, ws) ensures Strings(WordValues(words).value) == Success(ws) {
        WordTokensYield(es, ws);
      }
      if exists ws :: YieldsWords(words, ws) {
        var ws :| YieldsWords(words, ws);
        WordTokensYield(es, ws);
      }
    } else if words == JObj(map[]) || words == JStr([]) {
      assert YieldsWords(words, []);
    }
  }

  /** Tokens that all carry a string `word` yield exactly those strings. */
  lemma WordTokensYield(es: seq<Json>, ws: seq<string>)
    requires WordTokens(es, ws)
    ensures SubscriptAll(es, "word").Success? && Strings(SubscriptAll(es, "word").value) == Success(ws)
  {
    assert forall k :: 0 <= k < |es| ==> Subscript(es[k], Key("word")) == Success(JStr(ws[k]));
    var vs := SubscriptAll(es, "word");
    assert vs.Success?;
    assert forall k :: 0 <= k < |es| ==> vs.value[k] == JStr(ws[k]);
    var r := Strings(vs.value);
    assert r.Success?;
    assert |r.value| == |ws|;
    assert forall k :: 0 <= k < |ws| ==> r.value[k] == ws[k];
    assert r.value == ws;
  }

  /** Descending from `results` succeeds exactly when the reference path
      exists and iterating its words yields strings; then it yields them. */
  lemma {:induction false} TranscriptWordsIff(data: Json)
    requires HasChannels(data)
    ensures TranscriptWords(Field(data, "results").value).Success? <==>
              WordsPath(data).Some? && exists ws :: YieldsWords(WordsPath(data).value, ws)
    ensures forall ws :: WordsPath(data).Some? && YieldsWords(WordsPath(data).value, ws) ==>
              TranscriptWords(Field(data, "results").value) == Success(ws)
  {
    var results := Field(data, "results").value;
    var channels := Subscript(results, Key("channels"));
    if channels.Success? && channels.value.JArr? && |channels.value.items| > 0 {
      var channel := channels.value.items[0];
      var alternatives := Subscript(channel, Key("alternatives"));
      if alternatives.Success? && alternatives.value.JArr? && |alternatives.value.items| > 0 {
        var alternative := alternatives.value.items[0];
        var words := Subscript(alternative, Key("words"));
        if words.Success? {
          assert WordsPath(data) == Some(words.value);
          WordValuesYield(words.value);
        }
      } else if alternatives.Success? && alternatives.value.JStr? && |alternatives.value.s| > 0 {
        assert Subscript(alternatives.value, Position(0)) == Success(JStr([alternatives.value.s[0]]));
      }
    } else if channels.Success? && channels.value.JStr? && |channels.value.s| > 0 {
      assert Subscript(channels.value, Position(0)) == Success(JStr([channels.value.s[0]]));
    }
  }

  /** A transcript is produced exactly when `results.channels[0].alternatives[0].words`
      exists and iterating it yields strings: it is those strings joined with
      single spaces, in order, then stripped. */
  lemma TranscribedIff(data: Json)
    ensures FromDecoded(data).Transcribed? <==>
              HasChannels(data) && WordsPath(data).Some? && exists ws :: YieldsWords(WordsPath(data).value, ws)
    ensures forall ws :: HasChannels(data) && WordsPath(data).Some? && YieldsWords(WordsPath(data).value, ws) ==>
              FromDecoded(data) == Transcribed(PyStr.Strip(PyStr.Join(" ", ws)))
  {
    if HasChannels(data) {
      TranscriptWordsIff(data);
    }
  }

  lemma TranscribedWith(data: Json, ws: seq<string>)
    requires HasChannels(data) && WordsPath(data).Some? && YieldsWords(WordsPath(data).value, ws)
    ensures FromDecoded(data) == Transcribed(PyStr.Strip(PyStr.Join(" ", ws)))
  {
    var results := Field(data, "results").value;
    TranscriptWordsIff(data);
    assert TranscriptWords(results) == Success(ws);
    assert Contains(data, "results") == Success(true);
    assert Subscript(data, Key("results")) == Success(results);
    assert Contains(results, "channels") == Success(true);
  }

  /** The success case as the source states it: every token carries a string
      `word`, and the transcript is their space-join, stripped. */
  lemma SuccessJoin(input: string, parse: string -> Option<Json>, es: seq<Json>, ws: seq<string>)
    requires !PyStr.AllWhitespace(input) && parse(input).Some?
    requires WordsPath(parse(input).value) == Some(JArr(es)) && WordTokens(es, ws)
    ensures ExtractTranscriptText(input, parse) == PyStr.Strip(PyStr.Join(" ", ws))
  {
    var data := parse(input).value;
    PathHasChannels(data);
    assert YieldsWords(JArr(es), ws);
    TranscribedWith(data, ws);
    Decoded(input, parse);
  }

  /** Non-blank input that decodes goes on to the structure checks. */
  lemma Decoded(input: string, parse: string -> Option<Json>)
    requires !PyStr.AllWhitespace(input) && parse(input).Some?
    ensures ExtractTranscript(input, parse) == FromDecoded(parse(input).value)
  {
    PyStr.StripEmptyIff(input);
  }

  lemma PathHasChannels(data: Json)
    requires WordsPath(data).Some?
    ensures HasChannels(data)
  {
  }

  /** A transcript never starts or ends with whitespace. */
  lemma TranscriptTrimmed(input: string, parse: string -> Option<Json>)
    requires ExtractTranscript(input, parse).Transcribed?
    ensures PyStr.Trimmed(ExtractTranscriptText(input, parse))
  {
  }

  /** Round trip: words that are non-empty and hold no whitespace come back
      from `transcript.split(" ")` one for one, in order. */
  lemma SplitRecoversWords(input: string, parse: string -> Option<Json>, es: seq<Json>, ws: seq<string>)
    requires !PyStr.AllWhitespace(input) && parse(input).Some?
    requires WordsPath(parse(input).value) == Some(JArr(es)) && WordTokens(es, ws)
    requires |ws| >= 1
    requires forall k :: 0 <= k < |ws| ==> ws[k] != [] && forall c :: c in ws[k] ==> !PyStr.IsWhitespace(c)
    ensures PyStr.Split(ExtractTranscriptText(input, parse), ' ') == ws
  {
    SuccessJoin(input, parse, es, ws);
    var joined := PyStr.Join(" ", ws);
    PyStr.JoinEnds(" ", ws);
    var last := ws[|ws| - 1];
    assert joined[0] == ws[0][0];
    assert joined[|joined| - 1] == last[|last| - 1] by {
      assert joined[|joined| - |last|..][|last| - 1] == joined[|joined| - 1];
    }
    PyStr.StripTrimmed(joined);
    assert PyStr.IsWhitespace(' ');
    PyStr.SplitJoin(ws, ' ');
  }

  /** With no word tokens the transcript is the empty string. */
  lemma NoWordsEmptyTranscript(input: string, parse: string -> Option<Json>)
    requires !PyStr.AllWhitespace(input) && parse(input).Some?
    requires WordsPath(parse(input).value) == Some(JArr([]))
    ensures ExtractTranscriptText(input, parse) == ""
  {
    SuccessJoin(input, parse, [], []);
  }

  /** Once `results.channels` exists, the invalid-structure outcome is out of
      reach: a failure further down is reported by the generic handler, with
      its own prefix, never with the invalid-structure message. */
  lemma DeepFailures(data: Json)
    requires HasChannels(data)
    ensures FromDecoded(data).Transcribed? || FromDecoded(data).Failed?
    ensures WordsPath(data).None? ==> FromDecoded(data).Failed?
    ensures Field(Field(data, "results").value, "channels") == Some(JArr([])) ==>
              FromDecoded(data) == Failed(IndexError)
    ensures FromDecoded(data).Failed? ==>
              var text := Message(FromDecoded(data));
              FailurePrefix <= text && text != InvalidStructureMessage
  {
    TranscribedIff(data);
    assert FailurePrefix[5] != InvalidStructureMessage[5];
  }

  /** A token without `word`, or with a `word` that is not a string, makes
      the generic handler fire, with the exception CPython raises first:
      a missing key while collecting the generator (when every token is an
      object), else a TypeError from join. */
  lemma BadTokensFail(data: Json, es: seq<Json>)
    requires HasChannels(data) && WordsPath(data) == Some(JArr(es))
    ensures (forall k :: 0 <= k < |es| ==> es[k].JObj?)
            && (exists k :: 0 <= k < |es| && "word" !in es[k].fields) ==>
              FromDecoded(data) == Failed(KeyError)
    ensures (forall k :: 0 <= k < |es| ==> es[k].JObj? && "word" in es[k].fields)
            && (exists k :: 0 <= k < |es| && !es[k].fields["word"].JStr?) ==>
              FromDecoded(data) == Failed(TypeError)
  {
    TranscriptWordsIff(data);
    var results := Field(data, "results").value;
    assert TranscriptWords(results) == (var values :- WordValues(JArr(es)); Strings(values)) by {
      DescendToWords(data);
    }
  }

  /** Every step of the descent to `words` succeeds when the reference path exists. */
  lemma DescendToWords(data: Json)
    requires HasChannels(data) && WordsPath(data).Some?
    ensures TranscriptWords(Field(data, "results").value)
              == (var values :- WordValues(WordsPath(data).value); Strings(values))
  {
  }
}
