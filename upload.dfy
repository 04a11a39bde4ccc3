/**
 * The upload handling in `main` (app.py): the 100 MB size check, and what
 * happens to an accepted upload. The Streamlit widgets and the request to
 * the transcription service are not modelled; the page's observable steps
 * are a list of effects, and the text the service returned is a parameter.
 */
module Upload {
  import opened Wrappers
  import opened PyJson
  import Transcript

  /** 100 * 1024 * 1024 bytes. */
  const MaxUploadBytes: nat := 100 * 1024 * 1024

  const TooLargeMessage: string := "File size too large. Please upload a file smaller than 100MB."
  const TempPath: string := "temp_audio"

  /** The size check: an upload of `size` bytes goes on to transcription. */
  predicate SizeOk(size: nat)
  {
    size <= MaxUploadBytes
  }

  /** What the page does, in order. */
  datatype Effect =
    | ShowError(message: string)
    | SaveTempFile(path: string)
    | RequestTranscription(path: string)
    | ShowTranscript(text: string)
    | OfferDownload(fileName: string, mime: string, data: string)

  /** `main` after the file picker: `upload` is the size of the chosen file,
      if any; `response` is what transcribe_audio returns for it. */
  function HandleUpload(upload: Option<nat>, response: string, parse: string -> Option<Json>): (effects: seq<Effect>)
    ensures upload.None? ==> effects == []
    ensures upload.Some? && !SizeOk(upload.value) ==> effects == [ShowError(TooLargeMessage)]
    ensures RequestTranscription(TempPath) in effects <==> upload.Some? && upload.value <= 104857600
    ensures forall e :: e in effects && e.ShowTranscript? ==>
              e.text == Transcript.ExtractTranscriptText(response, parse)
    ensures upload.Some? && SizeOk(upload.value) ==>
              ShowTranscript(Transcript.ExtractTranscriptText(response, parse)) in effects
    ensures upload.Some? && SizeOk(upload.value) ==>
              var t := Transcript.ExtractTranscriptText(response, parse);
              effects == [SaveTempFile(TempPath), RequestTranscription(TempPath), ShowTranscript(t),
                          OfferDownload("transcription.txt", "text/plain", t)]
  {
    match upload
    case None => []
    case Some(size) =>
      if !SizeOk(size) then [ShowError(TooLargeMessage)]
      else
        var text := Transcript.ExtractTranscriptText(response, parse);
        [SaveTempFile(TempPath), RequestTranscription(TempPath), ShowTranscript(text),
         OfferDownload("transcription.txt", "text/plain", text)]
  }

  /** The boundary: exactly 100 MB is accepted, one byte more is rejected
      before any request is made. */
  lemma SizeBoundary(response: string, parse: string -> Option<Json>)
    ensures SizeOk(104857600) && !SizeOk(104857601)
    ensures forall e :: e in HandleUpload(Some(104857601), response, parse) ==> !e.RequestTranscription?
    ensures HandleUpload(Some(104857600), response, parse)[1] == RequestTranscription(TempPath)
  {
  }
}
